/**
 * The newer parser (src/parse/mod.rs): a one-token-lookahead recursive descent over the
 * classified arguments. The source's peekable cursor is an index into the token
 * sequence; every helper returns the index it leaves the cursor at, or an error.
 */
module CommandParser {
  import opened Wrappers
  import opened Tokens
  import opened Cli

  /** What `tokens` returns: every argument classified in order, the first one dropped when it is a path. */
  function TokensOf(args: seq<string>): (toks: seq<Token>)
    ensures |toks| == |args| || |toks| == |args| - 1
    ensures |toks| == |args| - 1 <==> |args| > 0 && Classify(args[0]).Path?
    ensures forall k :: 0 <= k < |toks| ==> toks[k] == Classify(args[k + |args| - |toks|])
  {
    var all := seq(|args|, k requires 0 <= k < |args| => Classify(args[k]));
    if |all| > 0 && all[0].Path? then all[1..] else all
  }

  /** `tokens`: classify each argument, then remove index 0 if it is a path (the executable's own path). */
  method Tokenize(args: seq<string>) returns (output: seq<Token>)
    ensures output == TokensOf(args)
  {
    output := [];
    for k := 0 to |args|
      invariant output == seq(k, j requires 0 <= j < k => Classify(args[j]))
    {
      output := output + [Classify(args[k])];
    }
    if |output| > 0 && output[0].Path? {
      output := output[1..];
    }
  }

  /** `it.next()`: moves the cursor one token on; past the end it stays where it is. */
  function Advance(toks: seq<Token>, i: nat): (j: nat)
    requires i <= |toks|
    ensures j <= |toks| && (j == i + 1 || j == i == |toks|)
  {
    if i < |toks| then i + 1 else i
  }

  /** The end of the run of size tokens that starts at `i`. */
  function SizeRunEnd(toks: seq<Token>, i: nat): (j: nat)
    requires i <= |toks|
    decreases |toks| - i
    ensures i <= j <= |toks|
    ensures forall k :: i <= k < j ==> toks[k].Size?
    ensures j == |toks| || !toks[j].Size?
  {
    if i < |toks| && toks[i].Size? then SizeRunEnd(toks, i + 1) else i
  }

  /** The values of the size tokens in `toks[i..j]`. */
  function SizeValues(toks: seq<Token>, i: nat, j: nat): (sizes: seq<nat>)
    requires i <= j <= |toks|
    requires forall k :: i <= k < j ==> toks[k].Size?
    ensures |sizes| == j - i
    ensures forall k :: 0 <= k < j - i ==> toks[i + k] == Size(sizes[k])
  {
    seq(j - i, k requires 0 <= k < j - i => toks[i + k].size)
  }

  /** `sizes`: consume size tokens while the cursor shows one, collecting their values in order. */
  method Sizes(toks: seq<Token>, i: nat) returns (j: nat, acc: seq<nat>)
    requires i <= |toks|
    ensures i <= j <= |toks|
    ensures forall k :: i <= k < j ==> toks[k].Size?
    ensures j == |toks| || !toks[j].Size?
    ensures acc == SizeValues(toks, i, j)
  {
    j, acc := i, [];
    while j < |toks| && toks[j].Size?
      invariant i <= j <= |toks|
      invariant forall k :: i <= k < j ==> toks[k].Size?
      invariant acc == SizeValues(toks, i, j)
      decreases |toks| - j
    {
      acc := acc + [toks[j].size];
      j := j + 1;
    }
  }

  /** `filter`: an optional `-r` that must be followed directly by a filter name; Nearest when absent. */
  function FilterAt(toks: seq<Token>, j: nat): (r: Result<(nat, Filter), Error>)
    requires j <= |toks|
    ensures r == Ok((j, Nearest)) <==> j == |toks| || toks[j] != FlagToken(Resample)
    ensures r.Ok? && r.value.0 != j ==>
      r.value.0 == j + 2 <= |toks| && toks[j] == FlagToken(Resample) && toks[j + 1] == FilterToken(r.value.1)
    ensures r.Err? ==> (toks[j] == FlagToken(Resample) &&
      if j + 1 < |toks| then !toks[j + 1].FilterToken? && r.error == Syntax(UnexpectedToken(j + 1))
      else r.error == Syntax(UnexpectedEnd))
  {
    if j < |toks| && toks[j] == FlagToken(Resample) then
      var k := Advance(toks, j);
      if k < |toks| then
        if toks[k].FilterToken? then Ok((k + 1, toks[k].filter)) else Err(Syntax(UnexpectedToken(k)))
      else Err(Syntax(UnexpectedEnd))
    else Ok((j, Nearest))
  }

  /** One binding per size, all with the entry's path and filter, in the order the sizes were given. */
  function BindingsFor(sizes: seq<nat>, path: string, filter: Filter): (bs: seq<Binding>)
    ensures |bs| == |sizes|
    ensures forall k :: 0 <= k < |sizes| ==> bs[k] == Binding(sizes[k], path, filter)
  {
    seq(|sizes|, k requires 0 <= k < |sizes| => Binding(sizes[k], path, filter))
  }

  /**
   * `entry`, called with the cursor on `-e`: a path, one or more sizes and an optional
   * filter; on success the cursor index after the entry and `entries` with one binding
   * appended per size. Repeated sizes are not rejected here.
   */
  function EntryAt(toks: seq<Token>, i: nat, entries: seq<Binding>): (r: Result<(nat, seq<Binding>), Error>)
    requires i < |toks|
    ensures r.Ok? ==> i + 3 <= r.value.0 <= |toks| && entries < r.value.1
    ensures r.Err? ==> (r.error.Syntax? &&
      (r.error.syntax.UnexpectedToken? ==> i < r.error.syntax.index < |toks|))
    ensures i + 1 == |toks| ==> r == Err(Syntax(UnexpectedEnd))
    ensures i + 1 < |toks| && !toks[i + 1].Path? ==> r == Err(Syntax(UnexpectedToken(i + 1)))
    ensures i + 2 == |toks| && toks[i + 1].Path? ==> r == Err(Syntax(UnexpectedEnd))
    ensures i + 2 < |toks| && toks[i + 1].Path? && !toks[i + 2].Size? ==> r == Err(Syntax(UnexpectedToken(i + 2)))
  {
    var p := Advance(toks, i);
    if p < |toks| then
      if toks[p].Path? then
        var s := Advance(toks, p);
        if s < |toks| then
          if toks[s].Size? then
            var j := SizeRunEnd(toks, s);
            match FilterAt(toks, j)
            case Err(e) => Err(e)
            case Ok((k, filter)) => Ok((k, entries + BindingsFor(SizeValues(toks, s, j), toks[p].path, filter)))
          else Err(Syntax(UnexpectedToken(s)))
        else Err(Syntax(UnexpectedEnd))
      else Err(Syntax(UnexpectedToken(p)))
    else Err(Syntax(UnexpectedEnd))
  }

  /** `entry` as the source runs it: `sizes` fills a buffer, then the bindings are pushed one by one. */
  method ParseEntry(toks: seq<Token>, i: nat, entries: seq<Binding>) returns (r: Result<(nat, seq<Binding>), Error>)
    requires i < |toks|
    ensures r == EntryAt(toks, i, entries)
  {
    var p := Advance(toks, i);
    if p == |toks| {
      return Err(Syntax(UnexpectedEnd));
    }
    if !toks[p].Path? {
      return Err(Syntax(UnexpectedToken(p)));
    }
    var path := toks[p].path;
    var s := Advance(toks, p);
    if s == |toks| {
      return Err(Syntax(UnexpectedEnd));
    }
    if !toks[s].Size? {
      return Err(Syntax(UnexpectedToken(s)));
    }
    var j, sizes := Sizes(toks, s);
    assert j == SizeRunEnd(toks, s) by { SizeRunEndUnique(toks, s, j); }
    var f := FilterAt(toks, j);
    if f.Err? {
      return Err(f.error);
    }
    var out := entries;
    for k := 0 to |sizes|
      invariant out == entries + BindingsFor(sizes[..k], path, f.value.1)
    {
      out := out + [Binding(sizes[k], path, f.value.1)];
    }
    assert sizes[..|sizes|] == sizes;
    r := Ok((f.value.0, out));
  }

  /** The index a run of sizes ends at is determined by the tokens. */
  lemma {:induction false} SizeRunEndUnique(toks: seq<Token>, i: nat, j: nat)
    requires i <= j <= |toks|
    requires forall k :: i <= k < j ==> toks[k].Size?
    requires j == |toks| || !toks[j].Size?
    ensures SizeRunEnd(toks, i) == j
    decreases j - i
  {
    if i < j {
      SizeRunEndUnique(toks, i + 1, j);
    }
  }

  /** `icon_type`: the container the flag under the cursor selects. */
  function IconTypeAt(toks: seq<Token>, i: nat): (r: Result<IconType, Error>)
    requires i <= |toks|
    ensures r.Ok? <==> i < |toks| && toks[i] in {FlagToken(Flag.Ico), FlagToken(Flag.Icns), FlagToken(Png)}
    ensures r.Ok? ==> toks[i] == FlagToken(ContainerFlag(r.value))
    ensures r.Err? ==> r.error == Syntax(if i < |toks| then UnexpectedToken(i) else UnexpectedEnd)
  {
    if i < |toks| then
      match toks[i]
      case FlagToken(Ico) => Ok(IconType.Ico)
      case FlagToken(Icns) => Ok(IconType.Icns)
      case FlagToken(Png) => Ok(PngSequence)
      case _ => Err(Syntax(UnexpectedToken(i)))
    else Err(Syntax(UnexpectedEnd))
  }

  /** The flag that selects a container. */
  function ContainerFlag(t: IconType): Flag {
    match t
    case Ico => Flag.Ico
    case Icns => Flag.Icns
    case PngSequence => Png
  }

  /** `expect_end`: advance once; the command stands only if no token is left. */
  function ExpectEnd(toks: seq<Token>, i: nat, command: Command): (r: Result<Command, Error>)
    requires i <= |toks|
    ensures r == Ok(command) <==> i + 1 >= |toks|
    ensures r.Err? ==> r.error == Syntax(UnexpectedToken(i + 1)) && i + 1 < |toks|
  {
    var p := Advance(toks, i);
    if p < |toks| then Err(Syntax(UnexpectedToken(p))) else Ok(command)
  }

  /**
   * `command`, called with the cursor on a container flag: nothing after it writes to
   * the standard output, a path writes to that file, and anything else is unexpected.
   */
  function CommandAt(toks: seq<Token>, i: nat, entries: seq<Binding>): (r: Result<Command, Error>)
    requires i < |toks|
    ensures r.Ok? ==> r.value.Icon? && r.value.entries == entries && toks[i] == FlagToken(ContainerFlag(r.value.iconType))
    ensures r.Ok? ==> (r.value.output == Stdout <==> i + 1 == |toks|)
    ensures r.Ok? && r.value.output.ToFile? ==> i + 2 == |toks| && toks[i + 1] == Path(r.value.output.path)
    ensures r.Err? ==> r.error.Syntax? && r.error.syntax.UnexpectedToken? && i <= r.error.syntax.index < |toks|
    ensures IconTypeAt(toks, i).Ok? && i + 1 < |toks| && !toks[i + 1].Path? ==> r == Err(Syntax(UnexpectedToken(i + 1)))
    ensures IconTypeAt(toks, i).Ok? && i + 2 < |toks| ==> r == Err(Syntax(UnexpectedToken(if toks[i + 1].Path? then i + 2 else i + 1)))
  {
    match IconTypeAt(toks, i)
    case Err(e) => Err(e)
    case Ok(iconType) =>
      var p := Advance(toks, i);
      if p < |toks| then
        if toks[p].Path? then ExpectEnd(toks, p, Icon(entries, iconType, ToFile(toks[p].path)))
        else Err(Syntax(UnexpectedToken(p)))
      else ExpectEnd(toks, p, Icon(entries, iconType, Stdout))
  }

  /**
   * The top-level loop of `args` from cursor `i` with the entries parsed so far: entries
   * are parsed while `-e` shows; a container flag, Help or Version ends the command;
   * any other token, or the end of the tokens, is an error.
   */
  function ParseFrom(toks: seq<Token>, i: nat, entries: seq<Binding>): (r: Result<Command, Error>)
    requires i <= |toks|
    decreases |toks| - i
    ensures r.Err? ==> (r.error.Syntax? &&
      (r.error.syntax.UnexpectedToken? ==> i <= r.error.syntax.index < |toks|))
    ensures r.Ok? && r.value.Icon? ==> entries <= r.value.entries
    ensures r.Ok? && r.value.Help? ==> i < |toks| && toks[|toks| - 1] == FlagToken(Flag.Help)
    ensures r.Ok? && r.value.Version? ==> i < |toks| && toks[|toks| - 1] == FlagToken(Flag.Version)
  {
    if i < |toks| then
      match toks[i]
      case FlagToken(Entry) =>
        (match EntryAt(toks, i, entries)
         case Err(e) => Err(e)
         case Ok((k, more)) => ParseFrom(toks, k, more))
      case FlagToken(Ico) => CommandAt(toks, i, entries)
      case FlagToken(Icns) => CommandAt(toks, i, entries)
      case FlagToken(Png) => CommandAt(toks, i, entries)
      case FlagToken(Help) => ExpectEnd(toks, i, Command.Help)
      case FlagToken(Version) => ExpectEnd(toks, i, Command.Version)
      case _ => Err(Syntax(UnexpectedToken(i)))
    else Err(Syntax(UnexpectedEnd))
  }

  /** What `args` computes from the argument list (passed in instead of read from a global). */
  function ArgsOf(args: seq<string>): Result<Command, Error> {
    if args == [] then Ok(Command.Help) else ParseFrom(TokensOf(args), 0, [])
  }

  /** `args`: the top-level loop over the shared cursor, with `entries` grown in place. */
  method Args(args: seq<string>) returns (r: Result<Command, Error>)
    ensures r == ArgsOf(args)
    ensures args == [] ==> r == Ok(Command.Help)
    ensures r.Err? ==> (r.error.Syntax? &&
      (r.error.syntax.UnexpectedToken? ==> r.error.syntax.index < |TokensOf(args)| <= |args|))
  {
    if |args| == 0 {
      return Ok(Command.Help);
    }
    var toks := Tokenize(args);
    var entries: seq<Binding> := [];
    var i: nat := 0;
    while i < |toks|
      invariant i <= |toks|
      invariant ParseFrom(toks, i, entries) == ParseFrom(toks, 0, [])
      decreases |toks| - i
    {
      match toks[i]
      case FlagToken(Entry) =>
        var e := ParseEntry(toks, i, entries);
        if e.Err? {
          return Err(e.error);
        }
        i, entries := e.value.0, e.value.1;
      case FlagToken(Ico) =>
        return CommandAt(toks, i, entries);
      case FlagToken(Icns) =>
        return CommandAt(toks, i, entries);
      case FlagToken(Png) =>
        return CommandAt(toks, i, entries);
      case FlagToken(Help) =>
        return ExpectEnd(toks, i, Command.Help);
      case FlagToken(Version) =>
        return ExpectEnd(toks, i, Command.Version);
      case _ =>
        return Err(Syntax(UnexpectedToken(i)));
    }
    return Err(Syntax(UnexpectedEnd));
  }

  // ----- The grammar, rendered as tokens, and what parsing it yields -----

  /** The shape of one entry on the command line: `-e path size... [-r filter]`. */
  datatype EntryForm = EntryForm(path: string, sizes: seq<nat>, filter: Option<Filter>)

  function SizeTokens(sizes: seq<nat>): (toks: seq<Token>)
    ensures |toks| == |sizes| && forall k :: 0 <= k < |sizes| ==> toks[k] == Size(sizes[k])
  {
    seq(|sizes|, k requires 0 <= k < |sizes| => Size(sizes[k]))
  }

  function FilterTokens(filter: Option<Filter>): seq<Token> {
    match filter
    case None => []
    case Some(f) => [FlagToken(Resample), FilterToken(f)]
  }

  function EntryTokens(e: EntryForm): seq<Token> {
    [FlagToken(Entry), Path(e.path)] + SizeTokens(e.sizes) + FilterTokens(e.filter)
  }

  function EntriesTokens(es: seq<EntryForm>): seq<Token> {
    if es == [] then [] else EntryTokens(es[0]) + EntriesTokens(es[1..])
  }

  /** The bindings an entry stands for: Nearest unless a filter is given. */
  function EntryBindings(e: EntryForm): seq<Binding> {
    BindingsFor(e.sizes, e.path, e.filter.GetOr(Nearest))
  }

  function EntriesBindings(es: seq<EntryForm>): seq<Binding> {
    if es == [] then [] else EntryBindings(es[0]) + EntriesBindings(es[1..])
  }

  /** Every entry names at least one size, as the grammar demands. */
  predicate WellFormed(es: seq<EntryForm>) {
    forall k :: 0 <= k < |es| ==> |es[k].sizes| > 0
  }

  /** What may follow an entry without being taken as a further size or a filter selector. */
  predicate MayFollowEntry(rest: seq<Token>) {
    rest == [] || (!rest[0].Size? && rest[0] != FlagToken(Resample))
  }

  /** The tokens of a whole icon command: the entries, the container flag, then the output path if any. */
  function CommandTokens(es: seq<EntryForm>, iconType: IconType, output: Output): seq<Token> {
    EntriesTokens(es) + [FlagToken(ContainerFlag(iconType))] +
    (match output
     case ToFile(p) => [Path(p)]
     case Stdout => [])
  }

  /** Where the parts of an entry's tokens sit in `toks` when they start at `i`. */
  lemma {:induction false} EntryLayout(toks: seq<Token>, i: nat, e: EntryForm, rest: seq<Token>)
    requires i <= |toks| && toks[i..] == EntryTokens(e) + rest
    ensures i + 2 + |e.sizes| <= |toks|
    ensures toks[i] == FlagToken(Entry) && toks[i + 1] == Path(e.path)
    ensures forall k :: 0 <= k < |e.sizes| ==> toks[i + 2 + k] == Size(e.sizes[k])
    ensures toks[i + 2 + |e.sizes|..] == FilterTokens(e.filter) + rest
  {
    var n := |e.sizes|;
    assert toks[i..][0] == EntryTokens(e)[0] && toks[i..][1] == EntryTokens(e)[1];
    forall k | 0 <= k < n
      ensures toks[i + 2 + k] == Size(e.sizes[k])
    {
      assert toks[i..][2 + k] == EntryTokens(e)[2 + k];
    }
    assert toks[i + 2 + n..] == toks[i..][2 + n..];
    assert EntryTokens(e) + rest == [FlagToken(Entry), Path(e.path)] + SizeTokens(e.sizes) + (FilterTokens(e.filter) + rest);
  }

  /** `-e P s1..sn [-r F]` appends exactly the n bindings `(si, P, F)`, F being Nearest without `-r`. */
  lemma {:induction false} EntryParses(toks: seq<Token>, i: nat, entries: seq<Binding>, e: EntryForm, rest: seq<Token>)
    requires i <= |toks| && toks[i..] == EntryTokens(e) + rest
    requires |e.sizes| > 0 && MayFollowEntry(rest)
    ensures i + |EntryTokens(e)| <= |toks|
    ensures EntryAt(toks, i, entries) == Ok((i + |EntryTokens(e)|, entries + EntryBindings(e)))
  {
    var n := |e.sizes|;
    var s := i + 2;
    EntryLayout(toks, i, e, rest);
    FilterAfterSizes(toks, s + n, e.filter, rest);
    SizeRunEndUnique(toks, s, s + n);
    assert SizeValues(toks, s, s + n) == e.sizes;
    EntryAtParts(toks, i, entries, s + n, s + n + |FilterTokens(e.filter)|, e.filter.GetOr(Nearest));
  }

  /** The filter part of an entry, or its absence, as `FilterAt` reads it before what may follow an entry. */
  lemma {:induction false} FilterAfterSizes(toks: seq<Token>, j: nat, filter: Option<Filter>, rest: seq<Token>)
    requires j <= |toks| && toks[j..] == FilterTokens(filter) + rest && MayFollowEntry(rest)
    ensures j == |toks| || !toks[j].Size?
    ensures FilterAt(toks, j) == Ok((j + |FilterTokens(filter)|, filter.GetOr(Nearest)))
  {
    if j < |toks| {
      assert toks[j] == toks[j..][0];
    }
    match filter
    case None =>
    case Some(f) =>
      assert toks[j + 1] == toks[j..][1];
  }

  /** `EntryAt` from the parts it reads: a path, a run of sizes ending at `j`, and the filter read there. */
  lemma {:induction false} EntryAtParts(toks: seq<Token>, i: nat, entries: seq<Binding>, j: nat, k: nat, filter: Filter)
    requires i + 2 < |toks| && toks[i + 1].Path? && toks[i + 2].Size?
    requires SizeRunEnd(toks, i + 2) == j && FilterAt(toks, j) == Ok((k, filter))
    ensures EntryAt(toks, i, entries) == Ok((k, entries + BindingsFor(SizeValues(toks, i + 2, j), toks[i + 1].path, filter)))
  {
  }

  /** One step of the top-level loop over an entry that parses. */
  lemma {:induction false} ParseFromEntry(toks: seq<Token>, i: nat, entries: seq<Binding>, k: nat, more: seq<Binding>)
    requires i < |toks| && toks[i] == FlagToken(Entry) && EntryAt(toks, i, entries) == Ok((k, more))
    ensures ParseFrom(toks, i, entries) == ParseFrom(toks, k, more)
  {
  }

  /** The tokens after the first entry of a run, and why they may follow it. */
  lemma {:induction false} EntriesTail(es: seq<EntryForm>, rest: seq<Token>)
    requires es != [] && WellFormed(es) && MayFollowEntry(rest)
    ensures MayFollowEntry(EntriesTokens(es[1..]) + rest)
    ensures WellFormed(es[1..])
  {
    var tail := EntriesTokens(es[1..]) + rest;
    if es[1..] != [] {
      assert tail[0] == EntryTokens(es[1..][0])[0];
    }
    assert WellFormed(es[1..]) by {
      forall j | 0 <= j < |es[1..]| ensures |es[1..][j].sizes| > 0 {
        assert es[1..][j] == es[j + 1];
      }
    }
  }

  /** A run's tokens and bindings split after its first entry. */
  lemma {:induction false} EntriesSplit(es: seq<EntryForm>, i: nat, entries: seq<Binding>)
    requires es != []
    ensures i + |EntriesTokens(es)| == i + |EntryTokens(es[0])| + |EntriesTokens(es[1..])|
    ensures entries + EntriesBindings(es) == entries + EntryBindings(es[0]) + EntriesBindings(es[1..])
  {
  }

  /** The tokens after an entry start where the entry's own tokens end. */
  lemma {:induction false} EntryRest(toks: seq<Token>, i: nat, e: EntryForm, tail: seq<Token>)
    requires i <= |toks| && toks[i..] == EntryTokens(e) + tail
    ensures i + |EntryTokens(e)| <= |toks| && toks[i + |EntryTokens(e)|..] == tail
  {
    assert toks[i + |EntryTokens(e)|..] == toks[i..][|EntryTokens(e)|..];
  }

  /** An entry's tokens are one step of the top-level loop, which goes on where the following tokens begin. */
  lemma {:induction false} EntryStep(toks: seq<Token>, i: nat, entries: seq<Binding>, e: EntryForm, tail: seq<Token>)
    requires i <= |toks| && toks[i..] == EntryTokens(e) + tail
    requires |e.sizes| > 0 && MayFollowEntry(tail)
    ensures i + |EntryTokens(e)| <= |toks| && toks[i + |EntryTokens(e)|..] == tail
    ensures ParseFrom(toks, i, entries) == ParseFrom(toks, i + |EntryTokens(e)|, entries + EntryBindings(e))
  {
    EntryParses(toks, i, entries, e, tail);
    assert toks[i..][0] == EntryTokens(e)[0];
    EntryRest(toks, i, e, tail);
    ParseFromEntry(toks, i, entries, i + |EntryTokens(e)|, entries + EntryBindings(e));
  }

  /** A spelled-out run starts with its first entry's tokens, followed by the rest of the run. */
  lemma {:induction false} FirstEntrySplit(toks: seq<Token>, i: nat, es: seq<EntryForm>, rest: seq<Token>)
    requires i <= |toks| && toks[i..] == EntriesTokens(es) + rest
    requires es != [] && WellFormed(es) && MayFollowEntry(rest)
    ensures WellFormed(es[1..]) && MayFollowEntry(EntriesTokens(es[1..]) + rest)
    ensures |es[0].sizes| > 0 && toks[i..] == EntryTokens(es[0]) + (EntriesTokens(es[1..]) + rest)
  {
    EntriesTail(es, rest);
    EntriesCons(es, rest);
  }

  /** A run's tokens are its first entry's tokens followed by the rest of the run. */
  lemma {:induction false} EntriesCons(es: seq<EntryForm>, rest: seq<Token>)
    requires es != []
    ensures EntriesTokens(es) + rest == EntryTokens(es[0]) + (EntriesTokens(es[1..]) + rest)
  {
  }

  /** Entry `e` is spelled out at cursor `i`, and what follows it may follow an entry. */
  predicate EntryAtPos(toks: seq<Token>, i: nat, e: EntryForm) {
    i + |EntryTokens(e)| <= |toks| && |e.sizes| > 0 &&
    toks[i..] == EntryTokens(e) + toks[i + |EntryTokens(e)|..] && MayFollowEntry(toks[i + |EntryTokens(e)|..])
  }

  /** The entries `es` are spelled out one after the other from cursor `i` on. */
  predicate RunAt(toks: seq<Token>, i: nat, es: seq<EntryForm>)
    decreases |es|
  {
    i <= |toks| &&
    (es != [] ==> EntryAtPos(toks, i, es[0]) && RunAt(toks, i + |EntryTokens(es[0])|, es[1..]))
  }

  /** An entry spelled out in front of what may follow an entry is laid out there. */
  lemma {:induction false} EntryPlaced(toks: seq<Token>, i: nat, e: EntryForm, tail: seq<Token>)
    requires i <= |toks| && toks[i..] == EntryTokens(e) + tail
    requires |e.sizes| > 0 && MayFollowEntry(tail)
    ensures EntryAtPos(toks, i, e) && toks[i + |EntryTokens(e)|..] == tail
  {
    EntryRest(toks, i, e, tail);
  }

  /** The first entry of a spelled-out run is laid out at its start, and the rest of the run follows it. */
  lemma {:induction false} FirstEntryPlaced(toks: seq<Token>, i: nat, es: seq<EntryForm>, rest: seq<Token>)
    requires i <= |toks| && toks[i..] == EntriesTokens(es) + rest
    requires es != [] && WellFormed(es) && MayFollowEntry(rest)
    ensures EntryAtPos(toks, i, es[0]) && WellFormed(es[1..])
    ensures toks[i + |EntryTokens(es[0])|..] == EntriesTokens(es[1..]) + rest
  {
    FirstEntrySplit(toks, i, es, rest);
    EntryPlaced(toks, i, es[0], EntriesTokens(es[1..]) + rest);
  }

  /** A spelled-out run of well-formed entries is laid out entry by entry. */
  lemma {:induction false} SpelledRun(toks: seq<Token>, i: nat, es: seq<EntryForm>, rest: seq<Token>)
    requires i <= |toks| && toks[i..] == EntriesTokens(es) + rest
    requires WellFormed(es) && MayFollowEntry(rest)
    ensures RunAt(toks, i, es)
    decreases |es|
  {
    if es != [] {
      FirstEntryPlaced(toks, i, es, rest);
      SpelledRun(toks, i + |EntryTokens(es[0])|, es[1..], rest);
    }
  }

  /** A laid-out run is consumed whole by the top-level loop, to `end`, its bindings `all` appended in order. */
  lemma {:induction false} RunParses(toks: seq<Token>, i: nat, entries: seq<Binding>, es: seq<EntryForm>, end: nat, all: seq<Binding>)
    requires RunAt(toks, i, es)
    requires end == i + |EntriesTokens(es)| && all == entries + EntriesBindings(es)
    ensures end <= |toks|
    ensures ParseFrom(toks, i, entries) == ParseFrom(toks, end, all)
    decreases |es|
  {
    if es == [] {
      assert end == i && all == entries;
    } else {
      var k := i + |EntryTokens(es[0])|;
      EntryStep(toks, i, entries, es[0], toks[k..]);
      EntriesSplit(es, i, entries);
      RunParses(toks, k, entries + EntryBindings(es[0]), es[1..], end, all);
    }
  }

  /** A run of well-formed entries is consumed whole, to `end`, its bindings `all` appended in order. */
  lemma {:induction false} EntriesParse(toks: seq<Token>, i: nat, entries: seq<Binding>, es: seq<EntryForm>, rest: seq<Token>, end: nat, all: seq<Binding>)
    requires i <= |toks| && toks[i..] == EntriesTokens(es) + rest
    requires WellFormed(es) && MayFollowEntry(rest)
    requires end == i + |EntriesTokens(es)| && all == entries + EntriesBindings(es)
    ensures end <= |toks|
    ensures ParseFrom(toks, i, entries) == ParseFrom(toks, end, all)
  {
    SpelledRun(toks, i, es, rest);
    RunParses(toks, i, entries, es, end, all);
  }

  /** The tokens of a command: the entries, then the container flag and the output. */
  lemma {:induction false} CommandTokensSplit(es: seq<EntryForm>, iconType: IconType, output: Output)
    ensures var toks := CommandTokens(es, iconType, output); var i := |EntriesTokens(es)|;
      i < |toks| && toks[i] == FlagToken(ContainerFlag(iconType)) &&
      toks[0..] == EntriesTokens(es) + toks[i..] &&
      (output.ToFile? ==> |toks| == i + 2 && toks[i + 1] == Path(output.path)) &&
      (output.Stdout? ==> |toks| == i + 1)
  {
  }

  /** Rendering an icon command as tokens and parsing it gives back its bindings, container and output. */
  lemma {:induction false} CommandParses(es: seq<EntryForm>, iconType: IconType, output: Output)
    requires WellFormed(es)
    ensures ParseFrom(CommandTokens(es, iconType, output), 0, []) == Ok(Icon(EntriesBindings(es), iconType, output))
  {
    var toks := CommandTokens(es, iconType, output);
    var i := |EntriesTokens(es)|;
    var all := EntriesBindings(es);
    CommandTokensSplit(es, iconType, output);
    assert all == [] + EntriesBindings(es);
    EntriesParse(toks, 0, [], es, toks[i..], i, all);
    assert ParseFrom(toks, i, all) == CommandAt(toks, i, all);
  }

  /** Help (or Version) as the last token succeeds and discards every entry parsed before it. */
  lemma {:induction false} HelpDiscardsEntries(es: seq<EntryForm>, flag: Flag)
    requires WellFormed(es) && flag in {Flag.Help, Flag.Version}
    ensures ParseFrom(EntriesTokens(es) + [FlagToken(flag)], 0, []) ==
      Ok(if flag == Flag.Help then Command.Help else Command.Version)
  {
    var toks := EntriesTokens(es) + [FlagToken(flag)];
    assert toks[0..] == EntriesTokens(es) + [FlagToken(flag)];
    var i := |EntriesTokens(es)|;
    var all := [] + EntriesBindings(es);
    EntriesParse(toks, 0, [], es, [FlagToken(flag)], i, all);
    assert toks[i] == FlagToken(flag);
  }

  /** Entries that reach the end without a container flag are an unexpected end. */
  lemma {:induction false} MissingContainer(es: seq<EntryForm>)
    requires WellFormed(es)
    ensures ParseFrom(EntriesTokens(es), 0, []) == Err(Syntax(UnexpectedEnd))
  {
    var toks := EntriesTokens(es);
    assert toks[0..] == toks + [];
    var i := |EntriesTokens(es)|;
    var all := [] + EntriesBindings(es);
    EntriesParse(toks, 0, [], es, [], i, all);
  }

  /** At top level only `-e`, a container flag, Help and Version are accepted. */
  lemma {:induction false} UnexpectedAtTopLevel(toks: seq<Token>, i: nat, entries: seq<Binding>)
    requires i < |toks|
    requires toks[i] !in {FlagToken(Entry), FlagToken(Flag.Ico), FlagToken(Flag.Icns), FlagToken(Png),
                          FlagToken(Flag.Help), FlagToken(Flag.Version)}
    ensures ParseFrom(toks, i, entries) == Err(Syntax(UnexpectedToken(i)))
  {
  }

  /** The two entries `-e a.png 16 -e b.png 16` as tokens and as bindings. */
  lemma {:induction false} RepeatedSizeSpelled(es: seq<EntryForm>)
    requires es == [EntryForm("a.png", [16], None), EntryForm("b.png", [16], None)]
    ensures WellFormed(es)
    ensures EntriesTokens(es) == [FlagToken(Entry), Path("a.png"), Size(16), FlagToken(Entry), Path("b.png"), Size(16)]
    ensures EntriesBindings(es) == [Binding(16, "a.png", Nearest), Binding(16, "b.png", Nearest)]
  {
    var a := es[0];
    var b := es[1];
    assert es[1..] == [b] && es[1..][1..] == [];
    assert EntryTokens(a) == [FlagToken(Entry), Path("a.png"), Size(16)];
    assert EntryTokens(b) == [FlagToken(Entry), Path("b.png"), Size(16)];
    assert EntryBindings(a) == [Binding(16, "a.png", Nearest)];
    assert EntryBindings(b) == [Binding(16, "b.png", Nearest)];
    assert EntriesTokens([b]) == EntryTokens(b) + [];
    assert EntriesBindings([b]) == EntryBindings(b) + [];
  }

  /** The same size given twice is accepted by the parser; duplicates are the icon builder's concern. */
  lemma {:induction false} RepeatedSizeAccepted()
    ensures ParseFrom([FlagToken(Entry), Path("a.png"), Size(16), FlagToken(Entry), Path("b.png"), Size(16),
                       FlagToken(Flag.Ico), Path("out.ico")], 0, []) ==
      Ok(Icon([Binding(16, "a.png", Nearest), Binding(16, "b.png", Nearest)], IconType.Ico, ToFile("out.ico")))
  {
    var es := [EntryForm("a.png", [16], None), EntryForm("b.png", [16], None)];
    RepeatedSizeSpelled(es);
    CommandParses(es, IconType.Ico, ToFile("out.ico"));
    assert CommandTokens(es, IconType.Ico, ToFile("out.ico")) ==
      [FlagToken(Entry), Path("a.png"), Size(16), FlagToken(Entry), Path("b.png"), Size(16), FlagToken(Flag.Ico), Path("out.ico")];
  }
}
