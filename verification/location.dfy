/** A diagnostic source location (`Location`): a source name and the token
    an error is reported at. Every query delegates to the wrapped token; the
    two renderings are `name:line` and `line N: <source line>`. */
module Locations {
  import opened Strings
  import Tokens

  datatype Location = Location(sourceName: string, token: Tokens.CFlatToken)

  /** The constructor taking a raw lexer token wraps it with the one-argument
      `CFlatToken` constructor. */
  function FromToken(sourceName: string, t: nat): Location
  {
    Location(sourceName, Tokens.Wrap(t))
  }

  function LineNo(heap: Tokens.Heap, loc: Location): int
    requires loc.token.token in heap
  {
    Tokens.LineNo(heap, loc.token)
  }

  function Column(heap: Tokens.Heap, loc: Location): int
    requires loc.token.token in heap
  {
    Tokens.Column(heap, loc.token)
  }

  /** A location built from a raw token reports the name it was given and the
      token's own begin line and column, through a non-special wrapper. */
  lemma FromTokenReadsToken(heap: Tokens.Heap, sourceName: string, t: nat)
    requires t in heap
    ensures FromToken(sourceName, t).sourceName == sourceName
    ensures !FromToken(sourceName, t).token.isSpecial
    ensures LineNo(heap, FromToken(sourceName, t)) == heap[t].beginLine
    ensures Column(heap, FromToken(sourceName, t)) == heap[t].beginColumn
  {
  }

  /** `toString()`: the source name, a colon, the line number in decimal. */
  function ToString(heap: Tokens.Heap, loc: Location): string
    requires loc.token.token in heap
  {
    loc.sourceName + ":" + Decimal(LineNo(heap, loc))
  }

  /** Reads a `name:line` rendering back, splitting at the last colon. */
  function SplitLocation(s: string): Option<(string, int)>
  {
    var k := LastIndexOf(s, ':');
    if k < 0 then None
    else
      match ParseDecimal(s[k + 1..])
      case None => None
      case Some(n) => Some((s[..k], n))
  }

  /** `toString()` loses nothing: the name (which may itself hold colons) and
      the line number are recovered from it. */
  lemma ToStringRoundTrip(heap: Tokens.Heap, loc: Location)
    requires loc.token.token in heap
    ensures SplitLocation(ToString(heap, loc)) == Some((loc.sourceName, LineNo(heap, loc)))
  {
    var n := LineNo(heap, loc);
    var s := ToString(heap, loc);
    assert s == loc.sourceName + [':'] + Decimal(n);
    DecimalPlain(n);
    LastIndexOfSeparator(loc.sourceName, ':', Decimal(n));
    var k := |loc.sourceName|;
    assert s[k + 1..] == Decimal(n);
    assert s[..k] == loc.sourceName;
    DecimalRoundTrip(n);
  }

  /** The text `numberedLine()` builds from a line number and a source line. */
  function Numbered(n: int, line: string): string
  {
    "line " + Decimal(n) + ": " + line
  }

  /** Reads a `line N: text` rendering back, splitting at the first colon
      after the `line ` prefix. */
  function SplitNumbered(s: string): Option<(int, string)>
  {
    if |s| < 5 || s[..5] != "line " then None
    else
      var t := s[5..];
      var k := IndexOf(t, ':');
      if k < 0 || k + 1 >= |t| || t[k + 1] != ' ' then None
      else
        match ParseDecimal(t[..k])
        case None => None
        case Some(n) => Some((n, t[k + 2..]))
  }

  /** A numbered line determines its line number and its source text. */
  lemma NumberedRoundTrip(n: int, line: string)
    ensures SplitNumbered(Numbered(n, line)) == Some((n, line))
  {
    var s := Numbered(n, line);
    var d := Decimal(n);
    assert s[..5] == "line ";
    var t := s[5..];
    assert t == d + [':'] + (" " + line);
    DecimalPlain(n);
    IndexOfSeparator(d, ':', " " + line);
    assert t[..|d|] == d;
    assert t[|d| + 2..] == line;
    DecimalRoundTrip(n);
  }

  /** `line()`: the wrapped token's included line. */
  method Line(heap: Tokens.Heap, loc: Location, ghost layout: seq<Tokens.Entry>) returns (line: string)
    requires Tokens.Laid(heap, Tokens.To(loc.token.token), layout)
    ensures line == Tokens.LineText(heap, layout)
    ensures '\n' !in line
  {
    line := Tokens.IncludedLine(heap, loc.token, layout);
  }

  /** `numberedLine()`: `line N: ` in front of the included line; a single
      line of text. */
  method NumberedLine(heap: Tokens.Heap, loc: Location, ghost layout: seq<Tokens.Entry>) returns (r: string)
    requires Tokens.Laid(heap, Tokens.To(loc.token.token), layout)
    ensures loc.token.token in heap
    ensures r == Numbered(LineNo(heap, loc), Tokens.LineText(heap, layout))
    ensures '\n' !in r
  {
    var line := Line(heap, loc, layout);
    DecimalPlain(Tokens.LineNo(heap, loc.token));
    r := "line " + Decimal(Tokens.LineNo(heap, loc.token)) + ": " + line;
  }
}
