/**
 * The older parser (src/parse.rs), with the command and error types it shares with the older
 * evaluator (src/eval.rs). Sizes are `(u16, u16)` pairs and may be written `WxH`; each `-f`
 * file collects its sizes without repetition and its attributes; `-o`/`-png` choose the
 * output by the extension of its path.
 */
module LegacyParse {
  import opened Wrappers
  import opened Numerals
  import opened Io
  import opened Imaging

  /** One more than the largest `u16`. */
  const U16_LIMIT: nat := 0x1_0000

  type U16 = n: nat | n < U16_LIMIT

  /** The crate's `Size`: a width and a height. */
  datatype Size = Size(w: U16, h: U16)

  datatype Attribute = Proportional | Interpolate

  datatype Token =
    | FileFlag | OutputFlag | PngFlag | HelpFlag
    | AttributeToken(attribute: Attribute)
    | Path(path: string)
    | SizeToken(size: Size)

  datatype FitType = Proportional | Strict

  datatype OutputType = PngSequence | Ico | Icns

  /** A parsed `-f` file: its path, its sizes in order without repetition, and its attributes. */
  datatype FileEntry = FileEntry(path: string, sizes: seq<Size>, fitType: FitType, filterType: FilterType)

  datatype Command = Help | Encode(files: seq<FileEntry>, outputPath: string, outputType: OutputType)

  datatype SyntaxError =
    | UnexpectedToken(token: string)
    | MissingOutputFlag
    | MissingOutputPath
    | SizeReassignment(size: Size)

  datatype EvalError =
    | UnsupportedOutputType(ext: string)
    | UnsupportedPngOutput(ext: string)
    | InvalidIcoSize(size: Size)
    | InvalidIcnsSize(size: Size)
    | IlligalDownsizing(requested: Size, sourceWidth: nat, sourceHeight: nat, ext: string)

  /** The errors of the older pipeline; `Panicked` stands for the process aborting. */
  datatype Error = Syntax(syntax: SyntaxError) | Eval(eval: EvalError) | Io(kind: IoKind, path: string) | Panicked

  predicate NoDuplicates<T(==)>(xs: seq<T>) {
    forall j, k :: 0 <= j < k < |xs| ==> xs[j] != xs[k]
  }

  // ---------------------------------------------------------------------------------------
  // Tokens

  /** The spellings matched literally, before any numeric parse. */
  const LITERALS: set<string> := {"-f", "-o", "-png", "-h", "-p", "--proportional", "-i", "--interpolate"}

  /** The index of the first 'x' in `s`, if any. */
  function FirstX(s: string): (r: Option<nat>)
    ensures r.Some? ==> (r.value < |s| && s[r.value] == 'x' && forall j :: 0 <= j < r.value ==> s[j] != 'x')
    ensures r.None? ==> 'x' !in s
  {
    if s == [] then None
    else if s[0] == 'x' then Some(0)
    else match FirstX(s[1..])
      case Some(k) => Some(k + 1)
      case None => assert forall j :: 0 < j < |s| ==> s[j] == s[1..][j - 1]; None
  }

  /** The regular expression `^\d+x\d+$`: the two digit runs around the 'x', if `s` has that shape. */
  function PairShape(s: string): Option<(string, string)> {
    match FirstX(s)
    case Some(k) =>
      if 0 < k && k + 1 < |s| && AllDigits(s[..k]) && AllDigits(s[k + 1..]) then Some((s[..k], s[k + 1..]))
      else None
    case None => None
  }

  /** `^\d+x\d+$` holds of exactly the strings made of two non-empty digit runs joined by an 'x'. */
  lemma PairShapeExact(s: string, a: string, b: string)
    ensures PairShape(s) == Some((a, b)) <==> (s == a + "x" + b && |a| > 0 && |b| > 0 && AllDigits(a) && AllDigits(b))
  {
    if s == a + "x" + b && |a| > 0 && |b| > 0 && AllDigits(a) && AllDigits(b) {
      assert s[|a|] == 'x';
      assert forall j :: 0 <= j < |a| ==> s[j] == a[j] != 'x';
      assert FirstX(s) == Some(|a|);
      assert s[..|a|] == a && s[|a| + 1..] == b;
    }
    if PairShape(s) == Some((a, b)) {
      var k := FirstX(s).value;
      assert s == s[..k] + "x" + s[k + 1..];
    }
  }

  /**
   * `tokens` on one argument: the literal spellings, then a `u16` numeral as a square size,
   * then a `WxH` pair, and a path otherwise. None: the `unwrap` of a `WxH` component that
   * does not fit a `u16` panics.
   */
  function Classify(s: string): (r: Option<Token>)
    ensures s in LITERALS ==> r.Some? && !r.value.Path? && !r.value.SizeToken?
    ensures s !in LITERALS && ParseUnsigned(s, U16_LIMIT).Some? ==>
      r == Some(SizeToken(Size(ParseUnsigned(s, U16_LIMIT).value, ParseUnsigned(s, U16_LIMIT).value)))
    ensures s !in LITERALS && ParseUnsigned(s, U16_LIMIT).None? && PairShape(s).Some? ==>
      var w := ParseUnsigned(PairShape(s).value.0, U16_LIMIT); var h := ParseUnsigned(PairShape(s).value.1, U16_LIMIT);
      r == if w.Some? && h.Some? then Some(SizeToken(Size(w.value, h.value))) else None
    ensures (r.Some? && r.value.Path?) <==> (s !in LITERALS && ParseUnsigned(s, U16_LIMIT).None? && PairShape(s).None?)
    ensures r.Some? && r.value.Path? ==> r.value.path == s
    ensures r.None? ==> PairShape(s).Some? && ParseUnsigned(s, U16_LIMIT).None?
  {
    match s
    case "-f" => Some(FileFlag)
    case "-o" => Some(OutputFlag)
    case "-png" => Some(PngFlag)
    case "-h" => Some(HelpFlag)
    case "-p" => Some(AttributeToken(Attribute.Proportional))
    case "--proportional" => Some(AttributeToken(Attribute.Proportional))
    case "-i" => Some(AttributeToken(Interpolate))
    case "--interpolate" => Some(AttributeToken(Interpolate))
    case _ =>
      match ParseUnsigned(s, U16_LIMIT)
      case Some(n) => Some(SizeToken(Size(n, n)))
      case None =>
        match PairShape(s)
        case Some((a, b)) =>
          (match (ParseUnsigned(a, U16_LIMIT), ParseUnsigned(b, U16_LIMIT))
           case (Some(w), Some(h)) => Some(SizeToken(Size(w, h)))
           case _ => None)
        case None => Some(Path(s))
  }

  /** `String::from(&Token)`: a token's canonical spelling; a square size is a single numeral. */
  function Render(t: Token): string {
    match t
    case FileFlag => "-f"
    case OutputFlag => "-o"
    case PngFlag => "-png"
    case HelpFlag => "-h"
    case AttributeToken(a) => if a == Attribute.Proportional then "--proportional" else "--interpolate"
    case Path(p) => p
    case SizeToken(Size(w, h)) => if w == h then Decimal(w) else Decimal(w) + "x" + Decimal(h)
  }

  /** The fixed spellings and the token each one becomes. */
  lemma ClassifyLiterals()
    ensures Classify("-f") == Some(FileFlag) && Classify("-o") == Some(OutputFlag)
    ensures Classify("-png") == Some(PngFlag) && Classify("-h") == Some(HelpFlag)
    ensures Classify("-p") == Some(AttributeToken(Attribute.Proportional))
    ensures Classify("--proportional") == Some(AttributeToken(Attribute.Proportional))
    ensures Classify("-i") == Some(AttributeToken(Interpolate))
    ensures Classify("--interpolate") == Some(AttributeToken(Interpolate))
  {
  }

  /** A numeral starts with a digit, so it is none of the literal spellings. */
  lemma NumeralNotLiteral(s: string)
    requires |s| > 0 && IsDigit(s[0])
    ensures s !in LITERALS
  {
  }

  /** A `u16` numeral is the square size of its value. */
  lemma {:induction false} ClassifySquare(n: U16)
    ensures Classify(Decimal(n)) == Some(SizeToken(Size(n, n)))
  {
    NumeralNotLiteral(Decimal(n));
    ParseDecimal(n, U16_LIMIT);
  }

  /** `WxH` with two `u16` numerals is the size `(W, H)`, and `W` and `H` are read back. */
  lemma {:induction false} ClassifyPair(w: U16, h: U16)
    ensures Classify(Decimal(w) + "x" + Decimal(h)) == Some(SizeToken(Size(w, h)))
  {
    var s := Decimal(w) + "x" + Decimal(h);
    assert s[0] == Decimal(w)[0];
    NumeralNotLiteral(s);
    assert s[|Decimal(w)|] == 'x';
    ParseRejectsNonDigit(s, U16_LIMIT, |Decimal(w)|);
    PairShapeExact(s, Decimal(w), Decimal(h));
    ParseDecimal(w, U16_LIMIT);
    ParseDecimal(h, U16_LIMIT);
  }

  /** Numerals need not be canonical: a zero-padded numeral is still a square size. */
  lemma ClassifyZeroPadded()
    ensures Classify("007") == Some(SizeToken(Size(7, 7)))
  {
    NumeralNotLiteral("007");
    assert ValueOf("007") == 7 by {
      assert "007"[..2] == "00" && "00"[..1] == "0" && "0"[..0] == "";
    }
  }

  /** A leading '+' is accepted by the numeric parse, so "+7" is a square size too. */
  lemma ClassifyPlusSign()
    ensures Classify("+7") == Some(SizeToken(Size(7, 7)))
  {
    assert "+7" !in LITERALS;
    assert ParseUnsigned("+7", U16_LIMIT) == Some(7) by {
      assert "+7"[1..] == "7" && "7"[..0] == "";
    }
  }

  /** The components of `WxH` may be zero-padded. */
  lemma ClassifyPaddedPair()
    ensures Classify("016x9") == Some(SizeToken(Size(16, 9)))
  {
    NumeralNotLiteral("016x9");
    ParseRejectsNonDigit("016x9", U16_LIMIT, 3);
    PairShapeExact("016x9", "016", "9");
    assert "016x9" == "016" + "x" + "9";
    assert ValueOf("016") == 16 by {
      assert "016"[..2] == "01" && "01"[..1] == "0" && "0"[..0] == "";
    }
    assert ValueOf("9") == 9 by {
      assert "9"[..0] == "";
    }
  }

  /** A `WxH` component above the `u16` range makes the tokenizer panic. */
  lemma {:induction false} PairOverflowPanics(w: nat, h: nat)
    requires w >= U16_LIMIT || h >= U16_LIMIT
    ensures Classify(Decimal(w) + "x" + Decimal(h)) == None
  {
    var s := Decimal(w) + "x" + Decimal(h);
    assert s[0] == Decimal(w)[0];
    NumeralNotLiteral(s);
    assert s[|Decimal(w)|] == 'x';
    ParseRejectsNonDigit(s, U16_LIMIT, |Decimal(w)|);
    PairShapeExact(s, Decimal(w), Decimal(h));
  }

  /** A single numeral above the `u16` range is a path, not a size. */
  lemma {:induction false} LargeNumeralIsPath(n: nat)
    requires n >= U16_LIMIT
    ensures Classify(Decimal(n)) == Some(Path(Decimal(n)))
  {
    NumeralNotLiteral(Decimal(n));
    assert FirstX(Decimal(n)).None? by {
      assert forall j :: 0 <= j < |Decimal(n)| ==> IsDigit(Decimal(n)[j]);
    }
  }

  /** Every token other than a path is read back from its rendering. */
  lemma {:induction false} RenderRoundTrip(t: Token)
    requires !t.Path?
    ensures Classify(Render(t)) == Some(t)
  {
    match t
    case SizeToken(Size(w, h)) =>
      if w == h {
        ClassifySquare(w);
      } else {
        ClassifyPair(w, h);
      }
    case _ =>
      ClassifyLiterals();
  }

  /** `tokens`: each argument classified in order; a panic anywhere aborts the whole run. */
  function TokensOf(args: seq<string>): (r: Result<seq<Token>, Error>)
    ensures r.Ok? ==> |r.value| == |args| && forall k :: 0 <= k < |args| ==> Classify(args[k]) == Some(r.value[k])
    ensures r.Err? ==> r.error == Panicked && exists k :: 0 <= k < |args| && Classify(args[k]).None?
  {
    if forall k :: 0 <= k < |args| ==> Classify(args[k]).Some? then
      Ok(seq(|args|, k requires 0 <= k < |args| => Classify(args[k]).value))
    else
      Err(Panicked)
  }

  /** A one-argument run on the rendering of a non-path token gives that token back. */
  lemma TokensRoundTrip(t: Token)
    requires !t.Path?
    ensures TokensOf([Render(t)]) == Ok([t])
  {
    var args := [Render(t)];
    RenderRoundTrip(t);
    assert Classify(args[0]) == Some(t);
    var r := TokensOf(args);
    assert r.Ok?;
    assert |r.value| == 1 && r.value[0] == t;
    assert r.value == [t];
  }

  method Tokenize(args: seq<string>) returns (r: Result<seq<Token>, Error>)
    ensures r == TokensOf(args)
  {
    var output: seq<Token> := [];
    for k := 0 to |args|
      invariant |output| == k
      invariant forall j :: 0 <= j < k ==> Classify(args[j]) == Some(output[j])
    {
      match Classify(args[k])
      case Some(t) =>
        output := output + [t];
      case None =>
        return Err(Panicked);
    }
    assert output == seq(|args|, k requires 0 <= k < |args| => Classify(args[k]).value);
    r := Ok(output);
  }

  // ---------------------------------------------------------------------------------------
  // Extensions

  /** The text after the last '.', or all of `s` when it has none. */
  function AfterLastDot(s: string): (e: string)
    ensures '.' !in e && |e| <= |s|
  {
    if s == [] then []
    else if s[|s| - 1] == '.' then []
    else AfterLastDot(s[..|s| - 1]) + [s[|s| - 1]]
  }

  /** `AfterLastDot` is the longest suffix without a '.': it ends `s`, and a '.' comes just before it. */
  lemma {:induction false} AfterLastDotSuffix(s: string)
    ensures s[|s| - |AfterLastDot(s)|..] == AfterLastDot(s)
    ensures |AfterLastDot(s)| < |s| ==> s[|s| - |AfterLastDot(s)| - 1] == '.'
  {
    if s != [] && s[|s| - 1] != '.' {
      var init := s[..|s| - 1];
      AfterLastDotSuffix(init);
      SuffixStep(s, AfterLastDot(init));
    }
  }

  /** A dot-free suffix of `s` without its last character, extended by that character, is a suffix of `s`. */
  lemma SuffixStep(s: string, e: string)
    requires s != [] && |e| < |s|
    requires s[..|s| - 1][|s| - 1 - |e|..] == e
    requires |e| < |s| - 1 ==> s[..|s| - 1][|s| - 2 - |e|] == '.'
    ensures s[|s| - (|e| + 1)..] == e + [s[|s| - 1]]
    ensures |e| + 1 < |s| ==> s[|s| - (|e| + 1) - 1] == '.'
  {
    var n := |s| - 1;
    assert s[n - |e|..] == s[..n][n - |e|..] + [s[n]];
  }

  /** `ext`: the extension of a path, None when the text after the last '.' is empty. */
  function ExtOf(s: string): Option<string> {
    var e := AfterLastDot(s);
    if e == [] then None else Some(e)
  }

  /** Removing the last character of `s` steps `AfterLastDot` back by one character, up to a '.'. */
  lemma AfterLastDotStep(s: string, i: nat)
    requires 0 < i <= |s|
    ensures AfterLastDot(s[..i]) == if s[i - 1] == '.' then [] else AfterLastDot(s[..i - 1]) + [s[i - 1]]
  {
    assert s[..i][..i - 1] == s[..i - 1];
  }

  /** After a '.', a run of characters without '.' is the whole of `AfterLastDot`. */
  lemma {:induction false} AfterDot(p: string, e: string)
    requires (p == [] || p[|p| - 1] == '.') && '.' !in e
    ensures AfterLastDot(p + e) == e
    decreases |e|
  {
    if e == [] {
      assert p + e == p;
    } else {
      var s := p + e;
      var init := e[..|e| - 1];
      assert s[..|s| - 1] == p + init;
      assert '.' !in init by {
        assert forall j :: 0 <= j < |init| ==> init[j] == e[j];
      }
      AfterDot(p, init);
      assert e == init + [e[|e| - 1]];
    }
  }

  /** A path with no '.' is its own extension. */
  lemma NoDotIsExt(s: string)
    requires '.' !in s && s != []
    ensures ExtOf(s) == Some(s)
  {
    AfterDot([], s);
    assert [] + s == s;
  }

  /** Appending `.e` for a non-empty `e` without '.' gives the extension `e`, whatever came before. */
  lemma ExtOfJoin(stem: string, e: string)
    requires '.' !in e && e != []
    ensures ExtOf(stem + "." + e) == Some(e)
  {
    AfterDot(stem + ".", e);
  }

  /** `ext`, as the source computes it: characters are taken from the end up to the last '.'. */
  method Ext(path: string) returns (r: Option<string>)
    ensures r == ExtOf(path)
  {
    var ext: string := [];
    var i := |path|;
    assert path[..i] == path;
    while i > 0
      invariant 0 <= i <= |path|
      invariant AfterLastDot(path) == AfterLastDot(path[..i]) + ext
      decreases i
    {
      var c := path[i - 1];
      AfterLastDotStep(path, i);
      if c == '.' {
        assert AfterLastDot(path) == ext;
        break;
      }
      ext := [c] + ext;
      i := i - 1;
    }
    if i == 0 {
      assert path[..i] == [];
    }
    assert AfterLastDot(path) == ext;
    if |ext| > 0 {
      r := Some(ext);
    } else {
      r := None;
    }
  }

  // ---------------------------------------------------------------------------------------
  // Files

  /** The sizes after `add_size(s)`: unchanged when `s` is present, `s` appended otherwise. */
  function WithSize(sizes: seq<Size>, s: Size): seq<Size> {
    if s in sizes then sizes else sizes + [s]
  }

  /** `add_size` keeps the sizes free of repetition, adds exactly `s`, and a repeat changes nothing. */
  lemma WithSizeProperties(sizes: seq<Size>, s: Size)
    ensures NoDuplicates(sizes) ==> NoDuplicates(WithSize(sizes, s))
    ensures forall t :: t in WithSize(sizes, s) <==> t in sizes || t == s
    ensures WithSize(WithSize(sizes, s), s) == WithSize(sizes, s)
    ensures sizes <= WithSize(sizes, s)
  {
  }

  /** A `-f` file as it is being parsed; `fitType` and `filterType` are set by its attributes. */
  class File {
    var path: string
    var sizes: seq<Size>
    var fitType: FitType
    var filterType: FilterType

    /** `File::new`: no sizes, Strict fit and the Nearest filter. */
    constructor (path: string)
      ensures this.path == path && sizes == [] && fitType == Strict && filterType == Nearest
    {
      this.path := path;
      sizes := [];
      fitType := Strict;
      filterType := Nearest;
    }

    method AddSize(size: Size)
      modifies this
      ensures sizes == WithSize(old(sizes), size)
      ensures path == old(path) && fitType == old(fitType) && filterType == old(filterType)
    {
      if size !in sizes {
        sizes := sizes + [size];
      }
    }

    /** The file as it is pushed onto the command's list. */
    function Value(): FileEntry
      reads this
    {
      FileEntry(path, sizes, fitType, filterType)
    }
  }

  /** The end of the run of size tokens starting at `j`. */
  function SizeRunEnd(toks: seq<Token>, j: nat): (k: nat)
    requires j <= |toks|
    ensures j <= k <= |toks|
    decreases |toks| - j
  {
    if j < |toks| && toks[j].SizeToken? then SizeRunEnd(toks, j + 1) else j
  }

  /** The sizes of a file holding `sizes` after `add_size` for each size token of the run at `j`. */
  function Collect(sizes: seq<Size>, toks: seq<Token>, j: nat): seq<Size>
    requires j <= |toks|
    decreases |toks| - j
  {
    if j < |toks| && toks[j].SizeToken? then Collect(WithSize(sizes, toks[j].size), toks, j + 1) else sizes
  }

  /** A file's sizes: no repetition, and exactly the sizes it held or that its run names. */
  lemma {:induction false} CollectContents(sizes: seq<Size>, toks: seq<Token>, j: nat)
    requires j <= |toks|
    ensures NoDuplicates(sizes) ==> NoDuplicates(Collect(sizes, toks, j))
    ensures forall s :: s in Collect(sizes, toks, j) <==>
      (s in sizes || exists k :: j <= k < SizeRunEnd(toks, j) && toks[k] == SizeToken(s))
    ensures sizes <= Collect(sizes, toks, j)
    decreases |toks| - j
  {
    if j < |toks| && toks[j].SizeToken? {
      WithSizeProperties(sizes, toks[j].size);
      CollectContents(WithSize(sizes, toks[j].size), toks, j + 1);
      forall s | s in Collect(sizes, toks, j)
        ensures s in sizes || exists k :: j <= k < SizeRunEnd(toks, j) && toks[k] == SizeToken(s)
      {
        if s !in sizes && s != toks[j].size {
          var k :| j + 1 <= k < SizeRunEnd(toks, j + 1) && toks[k] == SizeToken(s);
        }
      }
    }
  }

  /** The end of the run of attribute tokens starting at `j`. */
  function AttrRunEnd(toks: seq<Token>, j: nat): (k: nat)
    requires j <= |toks|
    ensures j <= k <= |toks|
    decreases |toks| - j
  {
    if j < |toks| && toks[j].AttributeToken? then AttrRunEnd(toks, j + 1) else j
  }

  /** The fit type after the attribute run at `j`: each `-p` sets Proportional. */
  function FitFrom(fit: FitType, toks: seq<Token>, j: nat): FitType
    requires j <= |toks|
    decreases |toks| - j
  {
    if j < |toks| && toks[j].AttributeToken? then
      FitFrom(if toks[j].attribute == Attribute.Proportional then FitType.Proportional else fit, toks, j + 1)
    else fit
  }

  /** The filter after the attribute run at `j`: each `-i` sets Triangle. */
  function FilterFrom(filter: FilterType, toks: seq<Token>, j: nat): FilterType
    requires j <= |toks|
    decreases |toks| - j
  {
    if j < |toks| && toks[j].AttributeToken? then
      FilterFrom(if toks[j].attribute == Interpolate then Triangle else filter, toks, j + 1)
    else filter
  }

  /** A file is Proportional exactly when it was already or its attribute run holds a `-p`. */
  lemma {:induction false} FitFromProportional(fit: FitType, toks: seq<Token>, j: nat)
    requires j <= |toks|
    ensures FitFrom(fit, toks, j) == FitType.Proportional <==>
      (fit == FitType.Proportional || exists k :: j <= k < AttrRunEnd(toks, j) && toks[k] == AttributeToken(Attribute.Proportional))
    decreases |toks| - j
  {
    if j < |toks| && toks[j].AttributeToken? {
      FitFromProportional(if toks[j].attribute == Attribute.Proportional then FitType.Proportional else fit, toks, j + 1);
    }
  }

  /** A file uses Triangle exactly when it already did or its attribute run holds a `-i`. */
  lemma {:induction false} FilterFromTriangle(filter: FilterType, toks: seq<Token>, j: nat)
    requires j <= |toks| && (filter == Nearest || filter == Triangle)
    ensures FilterFrom(filter, toks, j) == Nearest || FilterFrom(filter, toks, j) == Triangle
    ensures FilterFrom(filter, toks, j) == Triangle <==>
      (filter == Triangle || exists k :: j <= k < AttrRunEnd(toks, j) && toks[k] == AttributeToken(Interpolate))
    decreases |toks| - j
  {
    if j < |toks| && toks[j].AttributeToken? {
      FilterFromTriangle(if toks[j].attribute == Interpolate then Triangle else filter, toks, j + 1);
    }
  }

  /**
   * The `-f` branch at `i`: a path must follow, then any number of sizes (zero included),
   * then any number of attributes. Without a path the error names `-f` itself.
   */
  function FileAt(toks: seq<Token>, i: nat): (r: Result<(nat, FileEntry), Error>)
    requires i < |toks| && toks[i] == FileFlag
    ensures r.Ok? ==> i + 2 <= r.value.0 <= |toks|
    ensures r.Err? <==> !(i + 1 < |toks| && toks[i + 1].Path?)
    ensures r.Err? ==> r.error == Syntax(UnexpectedToken("-f"))
  {
    if i + 1 < |toks| && toks[i + 1].Path? then
      var j := SizeRunEnd(toks, i + 2);
      Ok((AttrRunEnd(toks, j),
          FileEntry(toks[i + 1].path, Collect([], toks, i + 2), FitFrom(Strict, toks, j), FilterFrom(Nearest, toks, j))))
    else
      Err(Syntax(UnexpectedToken("-f")))
  }

  /** The `-f` branch of `args`: reads the path, the sizes and the attributes into a new `File`. */
  method ReadFile(toks: seq<Token>, i: nat) returns (r: Result<(nat, FileEntry), Error>)
    requires i < |toks| && toks[i] == FileFlag
    ensures r == FileAt(toks, i)
  {
    if i + 1 < |toks| && toks[i + 1].Path? {
      var file := new File(toks[i + 1].path);
      var j := i + 2;
      while j < |toks| && toks[j].SizeToken?
        invariant i + 2 <= j <= |toks|
        invariant SizeRunEnd(toks, j) == SizeRunEnd(toks, i + 2)
        invariant Collect(file.sizes, toks, j) == Collect([], toks, i + 2)
        invariant file.path == toks[i + 1].path && file.fitType == Strict && file.filterType == Nearest
        decreases |toks| - j
      {
        file.AddSize(toks[j].size);
        j := j + 1;
      }
      var k := j;
      while k < |toks| && toks[k].AttributeToken?
        invariant j <= k <= |toks|
        invariant AttrRunEnd(toks, k) == AttrRunEnd(toks, j)
        invariant FitFrom(file.fitType, toks, k) == FitFrom(Strict, toks, j)
        invariant FilterFrom(file.filterType, toks, k) == FilterFrom(Nearest, toks, j)
        invariant file.path == toks[i + 1].path && file.sizes == Collect([], toks, i + 2)
        decreases |toks| - k
      {
        match toks[k].attribute {
          case Proportional => file.fitType := FitType.Proportional;
          case Interpolate => file.filterType := Triangle;
        }
        k := k + 1;
      }
      r := Ok((k, file.Value()));
    } else {
      r := Err(Syntax(UnexpectedToken(Render(FileFlag))));
    }
  }

  /** A parsed file's sizes never repeat; they are those of its run, and its attributes are its flags'. */
  lemma FileAtContents(toks: seq<Token>, i: nat)
    requires i < |toks| && toks[i] == FileFlag && i + 1 < |toks| && toks[i + 1].Path?
    ensures var f := FileAt(toks, i).value.1; var j := SizeRunEnd(toks, i + 2);
      f.path == toks[i + 1].path && NoDuplicates(f.sizes) &&
      (forall s :: s in f.sizes <==> exists k :: i + 2 <= k < j && toks[k] == SizeToken(s)) &&
      (f.fitType == FitType.Proportional <==>
         exists k :: j <= k < AttrRunEnd(toks, j) && toks[k] == AttributeToken(Attribute.Proportional)) &&
      (f.filterType == Triangle <==>
         exists k :: j <= k < AttrRunEnd(toks, j) && toks[k] == AttributeToken(Interpolate)) &&
      (f.filterType == Nearest || f.filterType == Triangle)
  {
    var j := SizeRunEnd(toks, i + 2);
    CollectContents([], toks, i + 2);
    FitFromProportional(Strict, toks, j);
    FilterFromTriangle(Nearest, toks, j);
  }

  // ---------------------------------------------------------------------------------------
  // Commands

  /** The output type an accepted extension selects. */
  function OutputTypeOfExt(e: string): OutputType {
    if e == "ico" then Ico else if e == "icns" then Icns else PngSequence
  }

  /** Whether the output flag accepts a path with extension `e`: `-o` takes ico/icns, `-png` takes zip. */
  predicate Accepts(flag: Token, e: string) {
    (flag == PngFlag && e == "zip") || (flag == OutputFlag && (e == "ico" || e == "icns"))
  }

  /** The `-o`/`-png` branch at `i`: the path's extension decides, and nothing may follow the path. */
  function OutputAt(toks: seq<Token>, i: nat, files: seq<FileEntry>): Result<Command, Error>
    requires i < |toks| && (toks[i] == OutputFlag || toks[i] == PngFlag)
  {
    if i + 1 < |toks| && toks[i + 1].Path? then
      var path := toks[i + 1].path;
      var e := ExtOf(path).GetOr("");
      if Accepts(toks[i], e) then
        if i + 2 < |toks| then Err(Syntax(UnexpectedToken(Render(toks[i + 2]))))
        else Ok(Encode(files, path, OutputTypeOfExt(e)))
      else if toks[i] == OutputFlag then Err(Eval(UnsupportedOutputType(e)))
      else Err(Eval(UnsupportedPngOutput(e)))
    else
      Err(Syntax(MissingOutputPath))
  }

  /** Tokens that `args` handles only as the skipped first stray argument. */
  predicate Stray(t: Token) {
    t.Path? || t.SizeToken? || t.AttributeToken?
  }

  /**
   * The loop of `args` from token `i`, with the files read so far and the `first_arg` flag:
   * `first_arg` is cleared only when a stray token is skipped.
   */
  function Run(toks: seq<Token>, i: nat, files: seq<FileEntry>, firstArg: bool): Result<Command, Error>
    requires i <= |toks|
    decreases |toks| - i
  {
    if i == |toks| then Err(Syntax(MissingOutputFlag))
    else match toks[i]
      case FileFlag =>
        (match FileAt(toks, i)
         case Ok((k, file)) => Run(toks, k, files + [file], firstArg)
         case Err(e) => Err(e))
      case OutputFlag => OutputAt(toks, i, files)
      case PngFlag => OutputAt(toks, i, files)
      case HelpFlag => if i + 1 < |toks| then Err(Syntax(UnexpectedToken(Render(toks[i + 1])))) else Ok(Help)
      case _ =>
        if firstArg then Run(toks, i + 1, files, false) else Err(Syntax(UnexpectedToken(Render(toks[i]))))
  }

  /** `args`: tokenize, then run the loop from the first token. */
  function ArgsOf(args: seq<string>): Result<Command, Error> {
    match TokensOf(args)
    case Ok(toks) => Run(toks, 0, [], true)
    case Err(e) => Err(e)
  }

  method Args(args: seq<string>) returns (r: Result<Command, Error>)
    ensures r == ArgsOf(args)
  {
    var tokens := Tokenize(args);
    if tokens.Err? {
      return Err(tokens.error);
    }
    r := ParseTokens(tokens.value);
  }

  /** The loop of `args` over the tokens. */
  method ParseTokens(toks: seq<Token>) returns (r: Result<Command, Error>)
    ensures r == Run(toks, 0, [], true)
  {
    var files: seq<FileEntry> := [];
    var firstArg := true;
    var i := 0;
    while i < |toks|
      invariant i <= |toks|
      invariant Run(toks, i, files, firstArg) == Run(toks, 0, [], true)
      decreases |toks| - i
    {
      var token := toks[i];
      match token
      case FileFlag =>
        var file := ReadFile(toks, i);
        if file.Err? {
          return Err(file.error);
        }
        files := files + [file.value.1];
        i := file.value.0;
      case OutputFlag =>
        return OutputAt(toks, i, files);
      case PngFlag =>
        return OutputAt(toks, i, files);
      case HelpFlag =>
        if i + 1 < |toks| {
          return Err(Syntax(UnexpectedToken(Render(toks[i + 1]))));
        }
        return Ok(Help);
      case _ =>
        if firstArg {
          i := i + 1;
          firstArg := false;
        } else {
          return Err(Syntax(UnexpectedToken(Render(token))));
        }
    }
    r := Err(Syntax(MissingOutputFlag));
  }

  /** Both accepted forms of the output flag, and the output type each extension selects. */
  lemma OutputAccepted(toks: seq<Token>, i: nat, files: seq<FileEntry>, stem: string, e: string)
    requires i + 2 == |toks| && (toks[i] == OutputFlag || toks[i] == PngFlag)
    requires toks[i + 1] == Path(stem + "." + e) && Accepts(toks[i], e)
    ensures OutputAt(toks, i, files) == Ok(Encode(files, stem + "." + e, OutputTypeOfExt(e)))
    ensures OutputTypeOfExt(e) == (if e == "ico" then Ico else if e == "icns" then Icns else PngSequence)
  {
    ExtOfJoin(stem, e);
  }

  /** A path the flag does not accept names the extension, empty when there is none. */
  lemma OutputRejected(toks: seq<Token>, i: nat, files: seq<FileEntry>)
    requires i + 1 < |toks| && toks[i] == OutputFlag && toks[i + 1].Path?
    requires !Accepts(OutputFlag, ExtOf(toks[i + 1].path).GetOr(""))
    ensures OutputAt(toks, i, files) == Err(Eval(UnsupportedOutputType(ExtOf(toks[i + 1].path).GetOr(""))))
  {
  }

  /** The output path must come right after the output flag. */
  lemma OutputNeedsPath(toks: seq<Token>, i: nat, files: seq<FileEntry>)
    requires i < |toks| && (toks[i] == OutputFlag || toks[i] == PngFlag)
    requires i + 1 == |toks| || !toks[i + 1].Path?
    ensures OutputAt(toks, i, files) == Err(Syntax(MissingOutputPath))
  {
  }

  /** `-png` with a path that is not a zip names the extension, empty when there is none. */
  lemma PngOutputRejected(toks: seq<Token>, i: nat, files: seq<FileEntry>)
    requires i + 1 < |toks| && toks[i] == PngFlag && toks[i + 1].Path?
    requires !Accepts(PngFlag, ExtOf(toks[i + 1].path).GetOr(""))
    ensures OutputAt(toks, i, files) == Err(Eval(UnsupportedPngOutput(ExtOf(toks[i + 1].path).GetOr(""))))
  {
  }

  /** Nothing may follow an accepted output path: the next token is reported. */
  lemma OutputFollowed(toks: seq<Token>, i: nat, files: seq<FileEntry>)
    requires i + 2 < |toks| && (toks[i] == OutputFlag || toks[i] == PngFlag) && toks[i + 1].Path?
    requires Accepts(toks[i], ExtOf(toks[i + 1].path).GetOr(""))
    ensures OutputAt(toks, i, files) == Err(Syntax(UnexpectedToken(Render(toks[i + 2]))))
  {
  }

  /**
   * Without an output or help flag the loop cannot succeed: it ends in MissingOutputFlag when it
   * runs out of tokens, and otherwise stops on an unexpected token.
   */
  lemma {:induction false} NoOutputFlag(toks: seq<Token>, i: nat, files: seq<FileEntry>, firstArg: bool)
    requires i <= |toks|
    requires forall k :: i <= k < |toks| ==> toks[k] != OutputFlag && toks[k] != PngFlag && toks[k] != HelpFlag
    ensures i == |toks| ==> Run(toks, i, files, firstArg) == Err(Syntax(MissingOutputFlag))
    ensures Run(toks, i, files, firstArg).Err?
    ensures Run(toks, i, files, firstArg).error == Syntax(MissingOutputFlag) ||
      (Run(toks, i, files, firstArg).error.Syntax? && Run(toks, i, files, firstArg).error.syntax.UnexpectedToken?)
    decreases |toks| - i
  {
    if i < |toks| {
      if toks[i] == FileFlag {
        var f := FileAt(toks, i);
        if f.Ok? {
          NoOutputFlag(toks, f.value.0, files + [f.value.1], firstArg);
        }
      } else if firstArg {
        NoOutputFlag(toks, i + 1, files, false);
      }
    }
  }

  /** The first stray token is skipped wherever it is; a second one is an error naming it. */
  lemma StrayTokens(toks: seq<Token>, i: nat, files: seq<FileEntry>)
    requires i < |toks| && Stray(toks[i])
    ensures Run(toks, i, files, true) == Run(toks, i + 1, files, false)
    ensures Run(toks, i, files, false) == Err(Syntax(UnexpectedToken(Render(toks[i]))))
  {
  }

  /** The extension each output type is written with. */
  function ExtName(t: OutputType): string {
    match t
    case Ico => "ico"
    case Icns => "icns"
    case PngSequence => "zip"
  }

  predicate SizesDistinct(files: seq<FileEntry>) {
    forall k :: 0 <= k < |files| ==> NoDuplicates(files[k].sizes)
  }

  /** An encode result extends `files`, repeats no size in any file, and its path has its type's extension. */
  predicate EncodesFrom(files: seq<FileEntry>, r: Result<Command, Error>) {
    r.Ok? && r.value.Encode? ==>
      files <= r.value.files && SizesDistinct(r.value.files) &&
      ExtOf(r.value.outputPath) == Some(ExtName(r.value.outputType))
  }

  /** An accepted output path always has the extension of the output type it selects. */
  lemma OutputResult(toks: seq<Token>, i: nat, files: seq<FileEntry>)
    requires i < |toks| && (toks[i] == OutputFlag || toks[i] == PngFlag)
    requires SizesDistinct(files)
    ensures EncodesFrom(files, OutputAt(toks, i, files))
  {
  }

  /** Reading one more file keeps every file's sizes free of repetition. */
  lemma FileAppended(toks: seq<Token>, i: nat, files: seq<FileEntry>)
    requires i < |toks| && toks[i] == FileFlag && FileAt(toks, i).Ok?
    requires SizesDistinct(files)
    ensures SizesDistinct(files + [FileAt(toks, i).value.1])
  {
    var more := files + [FileAt(toks, i).value.1];
    FileAtContents(toks, i);
    forall k | 0 <= k < |more|
      ensures NoDuplicates(more[k].sizes)
    {
      if k < |files| {
        assert more[k] == files[k];
      }
    }
  }

  /**
   * Whatever `args` returns from a loop state whose files have no repeated size is either Help,
   * an error, or an encode command whose files start with the files read so far, none of whose
   * files repeats a size, and whose output path has the extension of its type.
   */
  lemma {:induction false} RunResult(toks: seq<Token>, i: nat, files: seq<FileEntry>, firstArg: bool)
    requires i <= |toks| && SizesDistinct(files)
    ensures EncodesFrom(files, Run(toks, i, files, firstArg))
    decreases |toks| - i
  {
    if i < |toks| {
      var t := toks[i];
      if t == FileFlag {
        var f := FileAt(toks, i);
        if f.Ok? {
          FileAppended(toks, i, files);
          RunResult(toks, f.value.0, files + [f.value.1], firstArg);
        }
      } else if t == OutputFlag || t == PngFlag {
        OutputResult(toks, i, files);
      } else if t != HelpFlag && firstArg {
        RunResult(toks, i + 1, files, false);
      }
    }
  }

  /** `<program> -f <a> 16 -o <stem>.ico` is one file of one size, written as ICO. */
  lemma SingleFileExample(program: string, a: string, stem: string)
    ensures Run([Path(program), FileFlag, Path(a), SizeToken(Size(16, 16)), OutputFlag, Path(stem + ".ico")], 0, [], true) ==
      Ok(Encode([FileEntry(a, [Size(16, 16)], Strict, Nearest)], stem + ".ico", Ico))
  {
    var toks := [Path(program), FileFlag, Path(a), SizeToken(Size(16, 16)), OutputFlag, Path(stem + ".ico")];
    assert SizeRunEnd(toks, 4) == 4 && AttrRunEnd(toks, 4) == 4;
    assert SizeRunEnd(toks, 3) == 4;
    assert Collect([], toks, 3) == Collect([Size(16, 16)], toks, 4) == [Size(16, 16)];
    assert FitFrom(Strict, toks, 4) == Strict && FilterFrom(Nearest, toks, 4) == Nearest;
    assert FileAt(toks, 1) == Ok((4, FileEntry(a, [Size(16, 16)], Strict, Nearest)));
    ExtOfJoin(stem, "ico");
    assert stem + "." + "ico" == stem + ".ico";
    assert OutputAt(toks, 4, [FileEntry(a, [Size(16, 16)], Strict, Nearest)]) ==
      Ok(Encode([FileEntry(a, [Size(16, 16)], Strict, Nearest)], stem + ".ico", Ico));
    assert Run(toks, 4, [FileEntry(a, [Size(16, 16)], Strict, Nearest)], false) ==
      Ok(Encode([FileEntry(a, [Size(16, 16)], Strict, Nearest)], stem + ".ico", Ico));
    assert [] + [FileEntry(a, [Size(16, 16)], Strict, Nearest)] == [FileEntry(a, [Size(16, 16)], Strict, Nearest)];
    assert Run(toks, 1, [], false) == Run(toks, 4, [FileEntry(a, [Size(16, 16)], Strict, Nearest)], false);
  }
}
