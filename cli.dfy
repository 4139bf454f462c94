/**
 * The values the newer parser produces and the newer evaluator consumes: the command,
 * its entries and output, and the error type (src/main.rs, src/error/mod.rs).
 */
module Cli {
  import opened Tokens
  import opened Io

  datatype IconType = Ico | Icns | PngSequence

  /** Where the icon goes: a file, or the standard output when no output path is given. */
  datatype Output = ToFile(path: string) | Stdout

  /** One `(size, path, filter)` entry: the source at `path` supplies the icon of that size. */
  datatype Binding = Binding(size: nat, path: string, filter: Filter)

  datatype Command = Help | Version | Icon(entries: seq<Binding>, iconType: IconType, output: Output)

  /** Errors of the parser; positions index the token sequence. */
  datatype SyntaxError = UnexpectedToken(index: nat) | UnexpectedEnd

  /** The errors of the icon builder, which the model treats as an abstract collaborator. */
  datatype BakerError = BakerIo(kind: IoKind) | Rejected(code: nat)

  datatype Error = Syntax(syntax: SyntaxError) | IconBaker(baker: BakerError) | Io(kind: IoKind, output: Output)
}
