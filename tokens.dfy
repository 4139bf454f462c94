/** The newer tokenizer: each command-line string is classified on its own (src/parse/token.rs). */
module Tokens {
  import opened Wrappers
  import opened Numerals

  /** The resampling filters a user can name. */
  datatype Filter = Nearest | Linear | Cubic

  datatype Flag = Entry | Ico | Icns | Png | Help | Version | Resample

  /** A classified argument; a size is a Rust `u32`. */
  datatype Token = FlagToken(flag: Flag) | Path(path: string) | Size(size: nat) | FilterToken(filter: Filter)

  /** One more than the largest `u32`. */
  const U32_LIMIT: nat := 0x1_0000_0000

  /** The spellings matched literally, before any numeric parse. */
  const LITERALS: set<string> :=
    {"-e", "-ico", "-icns", "-png", "-r", "nearest", "linear", "cubic", "-h", "--help", "-v", "--version"}

  /** `Token::from(&str)`: literal spellings first, then a `u32` numeral, and a path otherwise. */
  function Classify(s: string): (t: Token)
    ensures t.FlagToken? <==> s in LITERALS - {"nearest", "linear", "cubic"}
    ensures t.FilterToken? <==> s in {"nearest", "linear", "cubic"}
    ensures t.Size? <==> s !in LITERALS && ParseUnsigned(s, U32_LIMIT).Some?
    ensures t.Size? ==> ParseUnsigned(s, U32_LIMIT) == Some(t.size) && t.size < U32_LIMIT
    ensures t.Path? <==> s !in LITERALS && ParseUnsigned(s, U32_LIMIT).None?
    ensures t.Path? ==> t.path == s
  {
    match s
    case "-e" => FlagToken(Entry)
    case "-ico" => FlagToken(Ico)
    case "-icns" => FlagToken(Icns)
    case "-png" => FlagToken(Png)
    case "-r" => FlagToken(Resample)
    case "nearest" => FilterToken(Nearest)
    case "linear" => FilterToken(Linear)
    case "cubic" => FilterToken(Cubic)
    case "-h" => FlagToken(Help)
    case "--help" => FlagToken(Help)
    case "-v" => FlagToken(Version)
    case "--version" => FlagToken(Version)
    case _ =>
      match ParseUnsigned(s, U32_LIMIT)
      case Some(n) => Size(n)
      // `PathBuf::new()` followed by `push(s)` holds exactly `s`
      case None => Path(s)
  }

  /** The fixed spellings and the token each one becomes. */
  lemma ClassifyLiterals()
    ensures Classify("-e") == FlagToken(Entry) && Classify("-ico") == FlagToken(Ico)
    ensures Classify("-icns") == FlagToken(Icns) && Classify("-png") == FlagToken(Png)
    ensures Classify("-r") == FlagToken(Resample)
    ensures Classify("-h") == FlagToken(Help) && Classify("--help") == FlagToken(Help)
    ensures Classify("-v") == FlagToken(Version) && Classify("--version") == FlagToken(Version)
    ensures Classify("nearest") == FilterToken(Nearest) && Classify("linear") == FilterToken(Linear)
    ensures Classify("cubic") == FilterToken(Cubic)
  {
  }

  /** No literal spelling is a numeral, so literals never compete with sizes. */
  lemma LiteralsAreNotDigits(s: string)
    requires s in LITERALS
    ensures !AllDigits(s)
  {
    assert !IsDigit(s[0]);
  }

  /** The rendering of every `u32` is classified back as that size. */
  lemma {:induction false} SizeRoundTrip(n: nat)
    requires n < U32_LIMIT
    ensures Classify(Decimal(n)) == Size(n)
  {
    if Decimal(n) in LITERALS {
      LiteralsAreNotDigits(Decimal(n));
    }
    ParseDecimal(n, U32_LIMIT);
  }

  /** This tokenizer has no `WxH` form: `16x16` stays a path. */
  lemma PairIsPath()
    ensures Classify("16x16") == Path("16x16")
  {
    ParseRejectsNonDigit("16x16", U32_LIMIT, 2);
  }

  /** A numeral one beyond the largest `u32` stays a path. */
  lemma OverflowIsPath()
    ensures Classify("4294967296") == Path("4294967296")
  {
    var s := "4294967296";
    assert AllDigits(s);
    assert ValueOf(s[..1]) == 4;
    assert s[..2][..1] == s[..1];
    assert ValueOf(s[..2]) == 42;
    assert s[..3][..2] == s[..2];
    assert ValueOf(s[..3]) == 429;
    assert s[..4][..3] == s[..3];
    assert ValueOf(s[..4]) == 4294;
    assert s[..5][..4] == s[..4];
    assert ValueOf(s[..5]) == 42949;
    assert s[..6][..5] == s[..5];
    assert ValueOf(s[..6]) == 429496;
    assert s[..7][..6] == s[..6];
    assert ValueOf(s[..7]) == 4294967;
    assert s[..8][..7] == s[..7];
    assert ValueOf(s[..8]) == 42949672;
    assert s[..9][..8] == s[..8];
    assert ValueOf(s[..9]) == 429496729;
    assert s[..10] == s && s[..10][..9] == s[..9];
    assert ValueOf(s) == 4294967296;
  }
}
