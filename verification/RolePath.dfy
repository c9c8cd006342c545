/**
  The hand-written parser of role paths (state/openidprovider/path.go). A string is the
  sequence of its code points, as in a rune slice converted from a Go string.

  The parser is proved equal to a grammar: it succeeds on exactly the texts of the grammar,
  with their meaning.
 */
module RolePath {
  datatype Error =
    | EmptyIdentifier
    | ExpectedDot
    | UnterminatedQuote
    | TruncatedEscape
    | UnknownEscape
    | TruncatedCodepoint
    | InvalidCodepoint

  /** `Panic` is reading the first element of an empty slice. */
  datatype Outcome<+T> = Ok(value: T, rest: string) | Failed(error: Error) | Panic

  /**
    The Unicode tables: `start` for L, Nl and Other_ID_Start, `more` for Mn, Mc, Nd, Pc and
    Other_ID_Continue, `pattern` for Pattern_Syntax and Pattern_White_Space.
   */
  datatype Tables = Tables(start: char -> bool, more: char -> bool, pattern: char -> bool)

  predicate IsIdStart(u: Tables, r: char) {
    u.start(r) && !u.pattern(r)
  }

  predicate IsIdContinue(u: Tables, r: char) {
    (u.start(r) || u.more(r)) && !u.pattern(r)
  }

  const QUOTE := '\"'
  const BACKSLASH := '\\'
  const REPLACEMENT: char := '\U{FFFD}'

  // ---------------------------------------------------------------------------
  // The parser as functions

  predicate Begins(u: Tables, r: char) {
    r == '$' || r == '_' || IsIdStart(u, r)
  }

  predicate Continues(u: Tables, r: char) {
    r == '$' || r == '_' || r == '\U{200C}' || r == '\U{200D}' || IsIdContinue(u, r)
  }

  /** How many leading characters may continue an identifier. */
  function Span(u: Tables, s: string): (n: nat)
    ensures n <= |s|
    ensures forall i :: 0 <= i < n ==> Continues(u, s[i])
    ensures n < |s| ==> !Continues(u, s[n])
  {
    if s == "" || !Continues(u, s[0]) then 0 else 1 + Span(u, s[1..])
  }

  function Unquoted(u: Tables, s: string): Outcome<string>
    requires s != ""
  {
    if !Begins(u, s[0]) then Ok("", s)
    else
      var n := 1 + Span(u, s[1..]);
      Ok(s[..n], s[n..])
  }

  predicate IsHex(c: char) {
    '0' <= c <= '9' || 'a' <= c <= 'f' || 'A' <= c <= 'F'
  }

  function HexValue(c: char): (n: nat)
    requires IsHex(c)
    ensures n < 16
  {
    if '0' <= c <= '9' then c as int - '0' as int
    else if 'a' <= c <= 'f' then c as int - 'a' as int + 10
    else c as int - 'A' as int + 10
  }

  predicate AllHex(h: string) {
    |h| == 4 && forall i :: 0 <= i < 4 ==> IsHex(h[i])
  }

  /** The character with that code; a surrogate half is none and reads as U+FFFD. */
  function Decoded(h: string): char
    requires AllHex(h)
  {
    var n := ((HexValue(h[0]) * 16 + HexValue(h[1])) * 16 + HexValue(h[2])) * 16 + HexValue(h[3]);
    if 0xD800 <= n < 0xE000 then REPLACEMENT else n as char
  }

  function Codepoint(s: string): (r: Outcome<string>)
    ensures r.Ok? ==> |r.rest| < |s|
  {
    if |s| < 4 then Failed(TruncatedCodepoint)
    else if !AllHex(s[..4]) then Failed(InvalidCodepoint)
    else Ok([Decoded(s[..4])], s[4..])
  }

  const LETTERS: set<char> := {'\"', '\\', '/', 'b', 'f', 'n', 'r', 't'}

  function ShortEscape(c: char): char
    requires c in LETTERS
  {
    if c == 'b' then '\U{8}'
    else if c == 'f' then '\U{C}'
    else if c == 'n' then '\n'
    else if c == 'r' then '\r'
    else if c == 't' then '\t'
    else c
  }

  /** Called behind the backslash; as the code stands it skips one more character before the letter. */
  function Escaped(s: string): (r: Outcome<string>)
    ensures r.Ok? ==> |r.rest| < |s|
  {
    if |s| < 2 then Failed(TruncatedEscape)
    else if s[1] in LETTERS then Ok([ShortEscape(s[1])], s[2..])
    else if s[1] == 'u' then Codepoint(s[2..])
    else Failed(UnknownEscape)
  }

  function Prepend(id: string, r: Outcome<string>): (p: Outcome<string>)
    ensures id == "" ==> p == r
    ensures r.Ok? && r.value == "" ==> p == Ok(id, r.rest)
  {
    match r
    case Ok(more, rest) =>
      assert "" + more == more && id + "" == id;
      Ok(id + more, rest)
    case Failed(e) => Failed(e)
    case Panic => Panic
  }

  /** A quoted identifier behind its opening quote. */
  function Body(s: string): (r: Outcome<string>)
    ensures r.Ok? ==> |r.rest| < |s|
    ensures r != Panic
    decreases |s|
  {
    if s == "" then Failed(UnterminatedQuote)
    else if s[0] == QUOTE then Ok("", s[1..])
    else if s[0] == BACKSLASH then
      match Escaped(s[1..])
      case Ok(esc, rest) => Prepend(esc, Body(rest))
      case Failed(e) => Failed(e)
      case Panic => Failed(UnknownEscape)
    else Prepend([s[0]], Body(s[1..]))
  }

  function Identifier(u: Tables, s: string): Outcome<string>
    requires s != ""
  {
    if s[0] == QUOTE then Body(s[1..]) else Unquoted(u, s)
  }

  function PrependPath(ids: seq<string>, r: Outcome<seq<string>>): (p: Outcome<seq<string>>)
    ensures ids == [] ==> p == r
  {
    match r
    case Ok(more, rest) =>
      assert [] + more == more;
      Ok(ids + more, rest)
    case Failed(e) => Failed(e)
    case Panic => Panic
  }

  function ParsePath(u: Tables, s: string): Outcome<seq<string>>
    decreases |s|
  {
    if s == "" then Panic
    else
      match Identifier(u, s)
      case Failed(e) => Failed(e)
      case Panic => Panic
      case Ok(id, rest) =>
        if id == "" then Failed(EmptyIdentifier)
        else if rest == "" then Ok([id], "")
        else if rest[0] != '.' then Failed(ExpectedDot)
        else PrependPath([id], ParsePath(u, rest[1..]))
  }

  // ---------------------------------------------------------------------------
  // The loops of the source

  method UnquotedLoop(u: Tables, s: string) returns (r: Outcome<string>)
    requires s != ""
    ensures r == Unquoted(u, s)
  {
    var c := s[0];
    if c != '$' && c != '_' && !IsIdStart(u, c) {
      return Ok("", s);
    }
    var idx := 1;
    while idx < |s|
      invariant 1 <= idx <= |s|
      invariant idx - 1 + Span(u, s[idx..]) == Span(u, s[1..])
    {
      assert s[idx..][1..] == s[idx + 1..];
      if s[idx] != '$' && s[idx] != '_' && s[idx] != '\U{200C}' && s[idx] != '\U{200D}' && !IsIdContinue(u, s[idx]) {
        break;
      }
      idx := idx + 1;
    }
    return Ok(s[..idx], s[idx..]);
  }

  method QuotedLoop(s: string) returns (r: Outcome<string>)
    requires s != "" && s[0] == QUOTE
    ensures r == Body(s[1..])
  {
    var str := s[1..];
    var id := "";
    while |str| > 0
      invariant Body(s[1..]) == Prepend(id, Body(str))
      decreases |str|
    {
      var c := str[0];
      str := str[1..];
      if c == QUOTE {
        return Ok(id, str);
      } else if c == BACKSLASH {
        match Escaped(str) {
          case Ok(esc, rest) =>
            assert forall more :: (id + esc) + more == id + (esc + more);
            id, str := id + esc, rest;
          case Failed(e) =>
            return Failed(e);
        }
      } else {
        assert forall more :: (id + [c]) + more == id + ([c] + more);
        id := id + [c];
      }
    }
    return Failed(UnterminatedQuote);
  }

  method ParseRolePath(u: Tables, s: string) returns (r: Outcome<seq<string>>)
    ensures r == ParsePath(u, s)
  {
    var str := s;
    var ids: seq<string> := [];
    while true
      invariant ParsePath(u, s) == PrependPath(ids, ParsePath(u, str))
      decreases |str|
    {
      if |str| == 0 {
        return Panic;
      }
      var id;
      if str[0] == QUOTE {
        id := QuotedLoop(str);
      } else {
        id := UnquotedLoop(u, str);
      }
      if id.Failed? {
        return Failed(id.error);
      }
      if id.value == "" {
        return Failed(EmptyIdentifier);
      }
      if id.rest == "" {
        return Ok(ids + [id.value], "");
      } else if id.rest[0] != '.' {
        return Failed(ExpectedDot);
      }
      assert forall more :: (ids + [id.value]) + more == ids + ([id.value] + more);
      ids := ids + [id.value];
      str := id.rest[1..];
    }
  }

  // ---------------------------------------------------------------------------
  // The grammar

  /** A piece of a quoted identifier; `skipped` is the character that the parser reads over. */
  datatype Piece = Raw(c: char) | Short(skipped: char, letter: char) | Code(skipped: char, hex: string)

  predicate ValidPiece(p: Piece) {
    match p
    case Raw(c) => c != QUOTE && c != BACKSLASH
    case Short(_, l) => l in LETTERS
    case Code(_, h) => AllHex(h)
  }

  function PieceText(p: Piece): string {
    match p
    case Raw(c) => [c]
    case Short(x, l) => [BACKSLASH, x, l]
    case Code(x, h) => [BACKSLASH, x, 'u'] + h
  }

  function PieceMeaning(p: Piece): char
    requires ValidPiece(p)
  {
    match p
    case Raw(c) => c
    case Short(_, l) => ShortEscape(l)
    case Code(_, h) => Decoded(h)
  }

  predicate ValidPieces(ps: seq<Piece>) {
    forall i :: 0 <= i < |ps| ==> ValidPiece(ps[i])
  }

  function PiecesText(ps: seq<Piece>): string {
    if ps == [] then "" else PieceText(ps[0]) + PiecesText(ps[1..])
  }

  function PiecesMeaning(ps: seq<Piece>): string
    requires ValidPieces(ps)
  {
    if ps == [] then "" else [PieceMeaning(ps[0])] + PiecesMeaning(ps[1..])
  }

  /** Where a bare identifier may start. */
  predicate StartsName(u: Tables, c: char) {
    c in {'$', '_'} || (u.start(c) && !u.pattern(c))
  }

  /** How it may go on: with a joiner, too. */
  predicate InName(u: Tables, c: char) {
    c in {'$', '_', '\U{200C}', '\U{200D}'} || ((u.start(c) || u.more(c)) && !u.pattern(c))
  }

  datatype Segment = Bare(id: string) | Quoted(pieces: seq<Piece>)

  predicate ValidSegment(u: Tables, g: Segment) {
    match g
    case Bare(id) =>
      id != "" && id[0] != QUOTE && StartsName(u, id[0]) && forall i :: 1 <= i < |id| ==> InName(u, id[i])
    case Quoted(ps) => ps != [] && ValidPieces(ps)
  }

  function SegmentText(g: Segment): string {
    match g
    case Bare(id) => id
    case Quoted(ps) => [QUOTE] + PiecesText(ps) + [QUOTE]
  }

  function SegmentMeaning(u: Tables, g: Segment): string
    requires ValidSegment(u, g)
  {
    match g
    case Bare(id) => id
    case Quoted(ps) => PiecesMeaning(ps)
  }

  ghost predicate ValidPath(u: Tables, gs: seq<Segment>) {
    gs != [] && forall i :: 0 <= i < |gs| ==> ValidSegment(u, gs[i])
  }

  function PathText(gs: seq<Segment>): string
    requires gs != []
  {
    if |gs| == 1 then SegmentText(gs[0]) else SegmentText(gs[0]) + "." + PathText(gs[1..])
  }

  ghost function PathMeaning(u: Tables, gs: seq<Segment>): seq<string>
    requires ValidPath(u, gs)
  {
    if |gs| == 1 then [SegmentMeaning(u, gs[0])]
    else [SegmentMeaning(u, gs[0])] + PathMeaning(u, gs[1..])
  }

  // ---------------------------------------------------------------------------
  // The tables of the parser and those of the grammar

  lemma NameExact(u: Tables, c: char)
    ensures Begins(u, c) <==> StartsName(u, c)
    ensures Continues(u, c) <==> InName(u, c)
  {}

  // ---------------------------------------------------------------------------
  // Parsing one segment

  lemma ShortParses(x: char, l: char, rest: string)
    requires l in LETTERS
    ensures Body([BACKSLASH, x, l] + rest) == Prepend([ShortEscape(l)], Body(rest))
  {
    var s := [BACKSLASH, x, l] + rest;
    assert s[1..] == [x, l] + rest && s[1..][2..] == rest;
  }

  lemma CodeParses(x: char, h: string, rest: string)
    requires AllHex(h)
    ensures Body([BACKSLASH, x, 'u'] + h + rest) == Prepend([Decoded(h)], Body(rest))
  {
    var s := [BACKSLASH, x, 'u'] + h + rest;
    assert s[1..][1] == 'u' && s[1..][2..] == h + rest;
    assert (h + rest)[..4] == h && (h + rest)[4..] == rest;
  }

  lemma PieceParses(p: Piece, rest: string)
    requires ValidPiece(p)
    ensures Body(PieceText(p) + rest) == Prepend([PieceMeaning(p)], Body(rest))
  {
    match p
    case Raw(c) => assert ([c] + rest)[1..] == rest;
    case Short(x, l) => ShortParses(x, l, rest);
    case Code(x, h) => CodeParses(x, h, rest);
  }

  lemma {:induction false} PiecesParse(ps: seq<Piece>, rest: string)
    requires ValidPieces(ps)
    ensures Body(PiecesText(ps) + [QUOTE] + rest) == Ok(PiecesMeaning(ps), rest)
  {
    if ps == [] {
      assert (PiecesText(ps) + [QUOTE] + rest)[1..] == rest;
    } else {
      PiecesParse(ps[1..], rest);
      PieceParses(ps[0], PiecesText(ps[1..]) + [QUOTE] + rest);
      assert PiecesText(ps) + [QUOTE] + rest == PieceText(ps[0]) + (PiecesText(ps[1..]) + [QUOTE] + rest);
    }
  }

  /** A successful escape is the text of a piece. */
  lemma EscapeIsPiece(s: string) returns (p: Piece)
    requires s != "" && s[0] == BACKSLASH && Escaped(s[1..]).Ok?
    ensures ValidPiece(p) && !p.Raw? && s == PieceText(p) + Escaped(s[1..]).rest
    ensures Escaped(s[1..]).value == [PieceMeaning(p)]
  {
    if s[2] in LETTERS {
      p := Short(s[1], s[2]);
    } else {
      p := Code(s[1], s[3..7]);
      assert s[1..][2..] == s[3..];
      assert s[3..][..4] == s[3..7] && s[3..][4..] == s[7..];
    }
  }

  /** What is read behind a backslash is exactly the rest of an escape, with its meaning. */
  lemma EscapedExact(s: string, c: string, rest: string)
    ensures Escaped(s) == Ok(c, rest) <==>
            exists p: Piece ::
              ValidPiece(p) && !p.Raw? && [BACKSLASH] + s == PieceText(p) + rest && c == [PieceMeaning(p)]
  {
    var t := [BACKSLASH] + s;
    assert t[1..] == s;
    if Escaped(s) == Ok(c, rest) {
      var p := EscapeIsPiece(t);
    }
    forall p: Piece | ValidPiece(p) && !p.Raw? && t == PieceText(p) + rest
      ensures Escaped(s) == Ok([PieceMeaning(p)], rest)
    {
      EscapeReads(p, rest);
    }
  }

  const LOWER := "0123456789abcdef"
  const UPPER := "0123456789ABCDEF"

  /** The hexadecimal digit for `d`, in either case. */
  function Hex(d: nat, upper: bool): char
    requires d < 16
  {
    if upper then UPPER[d] else LOWER[d]
  }

  lemma HexIsDigit(d: nat, upper: bool)
    requires d < 16
    ensures IsHex(Hex(d, upper)) && HexValue(Hex(d, upper)) == d
  {}

  /** There are no other digits. */
  lemma HexExact(c: char)
    ensures IsHex(c) <==> exists d: nat, upper: bool :: d < 16 && Hex(d, upper) == c
  {
    if IsHex(c) {
      HexIsDigit(HexValue(c), 'A' <= c <= 'F');
      assert Hex(HexValue(c), 'A' <= c <= 'F') == c;
    }
  }

  /** The four digits of `n`, each in either case. */
  function HexText(n: nat, a: bool, b: bool, c: bool, d: bool): string
    requires n < 0x10000
  {
    [Hex(n / 0x1000, a), Hex(n / 0x100 % 0x10, b), Hex(n / 0x10 % 0x10, c), Hex(n % 0x10, d)]
  }

  /** The letters of section 7 of RFC 8259 that may be escaped, and below each what it stands for. */
  const SHORT := "\"\\/bfnrt"
  const MEANS := "\"\\/\U{8}\U{C}\U{A}\U{D}\U{9}"

  /** A short escape is read as what its letter stands for; no other letter is one. */
  lemma ShortReads(i: nat, skipped: char, rest: string)
    requires i < 8
    ensures Escaped([skipped, SHORT[i]] + rest) == Ok([MEANS[i]], rest)
  {
    var s := [skipped, SHORT[i]] + rest;
    assert s[2..] == rest;
  }

  lemma ShortExact(l: char)
    ensures l in LETTERS <==> l in SHORT
  {
    assert SHORT == ['\"', '\\', '/', 'b', 'f', 'n', 'r', 't'];
  }

  /** An escape of the four digits of `n`, in either case, is read as character `n`; a surrogate half as U+FFFD. */
  lemma NumberReads(n: nat, a: bool, b: bool, c: bool, d: bool, skipped: char, rest: string)
    requires n < 0x10000
    ensures Escaped([skipped, 'u'] + HexText(n, a, b, c, d) + rest) ==
            Ok([if 0xD800 <= n < 0xE000 then '\U{FFFD}' else n as char], rest)
  {
    HexIsDigit(n / 0x1000, a);
    HexIsDigit(n / 0x100 % 0x10, b);
    HexIsDigit(n / 0x10 % 0x10, c);
    HexIsDigit(n % 0x10, d);
    var h := HexText(n, a, b, c, d);
    HexTextDecodes(n, h);
    EscapeReads(Code(skipped, h), rest);
    assert (PieceText(Code(skipped, h)) + rest)[1..] == [skipped, 'u'] + h + rest;
  }

  lemma DigitsMakeNumber(n: nat, a: nat, b: nat, c: nat, d: nat)
    requires a == n / 0x1000 && b == n / 0x100 % 0x10 && c == n / 0x10 % 0x10 && d == n % 0x10
    ensures ((a * 16 + b) * 16 + c) * 16 + d == n
  {
    assert a * 16 + b == n / 0x100;
    assert n / 0x100 * 16 + c == n / 0x10;
  }

  lemma HexTextDecodes(n: nat, h: string)
    requires n < 0x10000 && AllHex(h)
    requires HexValue(h[0]) == n / 0x1000 && HexValue(h[1]) == n / 0x100 % 0x10
    requires HexValue(h[2]) == n / 0x10 % 0x10 && HexValue(h[3]) == n % 0x10
    ensures Decoded(h) == if 0xD800 <= n < 0xE000 then '\U{FFFD}' else n as char
  {
    DigitsMakeNumber(n, HexValue(h[0]), HexValue(h[1]), HexValue(h[2]), HexValue(h[3]));
  }

  lemma EscapeReads(p: Piece, rest: string)
    requires ValidPiece(p) && !p.Raw?
    ensures Escaped((PieceText(p) + rest)[1..]) == Ok([PieceMeaning(p)], rest)
  {
    var s := (PieceText(p) + rest)[1..];
    if p.Short? {
      assert s == [p.skipped, p.letter] + rest;
      assert s[2..] == rest;
    } else {
      assert s == [p.skipped, 'u'] + p.hex + rest;
      assert s[2..] == p.hex + rest;
      assert (p.hex + rest)[..4] == p.hex && (p.hex + rest)[4..] == rest;
    }
  }

  lemma ConsPiece(p: Piece, ps: seq<Piece>, rest: string)
    requires ValidPiece(p) && ValidPieces(ps)
    ensures ValidPieces([p] + ps)
    ensures PiecesText([p] + ps) + [QUOTE] + rest == PieceText(p) + (PiecesText(ps) + [QUOTE] + rest)
    ensures PiecesMeaning([p] + ps) == [PieceMeaning(p)] + PiecesMeaning(ps)
  {
    assert ([p] + ps)[1..] == ps;
  }

  lemma {:induction false} BodyIsPieces(s: string) returns (ps: seq<Piece>)
    requires Body(s).Ok?
    ensures ValidPieces(ps) && s == PiecesText(ps) + [QUOTE] + Body(s).rest
    ensures PiecesMeaning(ps) == Body(s).value
    decreases |s|
  {
    if s[0] == QUOTE {
      ps := [];
    } else if s[0] == BACKSLASH {
      var p := EscapeIsPiece(s);
      var more := BodyIsPieces(Escaped(s[1..]).rest);
      ConsPiece(p, more, Body(s).rest);
      ps := [p] + more;
    } else {
      var more := BodyIsPieces(s[1..]);
      ConsPiece(Raw(s[0]), more, Body(s).rest);
      ps := [Raw(s[0])] + more;
    }
  }

  /** Behind a bare identifier there is nothing that could continue it. */
  predicate Ends(u: Tables, g: Segment, rest: string) {
    g.Bare? && rest != "" ==> !InName(u, rest[0])
  }

  lemma {:induction false} SpanStops(u: Tables, s: string, n: nat)
    requires n <= |s| && (forall i :: 0 <= i < n ==> Continues(u, s[i]))
    requires n < |s| ==> !Continues(u, s[n])
    ensures Span(u, s) == n
  {
    if n > 0 {
      SpanStops(u, s[1..], n - 1);
    }
  }

  lemma BareParses(u: Tables, id: string, rest: string)
    requires ValidSegment(u, Bare(id)) && (rest != "" ==> !InName(u, rest[0]))
    ensures Unquoted(u, id + rest) == Ok(id, rest)
  {
    var s := id + rest;
    forall c: char ensures (Begins(u, c) <==> StartsName(u, c)) && (Continues(u, c) <==> InName(u, c)) {
      NameExact(u, c);
    }
    SpanStops(u, s[1..], |id| - 1);
    assert s[..|id|] == id && s[|id|..] == rest;
  }

  lemma {:induction false} MeaningLength(ps: seq<Piece>)
    requires ValidPieces(ps)
    ensures |PiecesMeaning(ps)| == |ps|
  {
    if ps != [] {
      MeaningLength(ps[1..]);
    }
  }

  lemma BehindQuote(b: string, rest: string)
    ensures ([QUOTE] + b + [QUOTE] + rest)[0] == QUOTE
    ensures ([QUOTE] + b + [QUOTE] + rest)[1..] == b + [QUOTE] + rest
  {}

  lemma QuotedParses(ps: seq<Piece>, rest: string)
    requires ValidPieces(ps)
    ensures var s := SegmentText(Quoted(ps)) + rest;
      s[0] == QUOTE && Body(s[1..]) == Ok(PiecesMeaning(ps), rest)
  {
    PiecesParse(ps, rest);
    BehindQuote(PiecesText(ps), rest);
  }

  lemma SegmentParses(u: Tables, g: Segment, rest: string)
    requires ValidSegment(u, g) && Ends(u, g, rest)
    ensures SegmentText(g) + rest != ""
    ensures Identifier(u, SegmentText(g) + rest) == Ok(SegmentMeaning(u, g), rest)
    ensures SegmentMeaning(u, g) != ""
  {
    match g
    case Bare(id) =>
      BareParses(u, id, rest);
    case Quoted(ps) =>
      QuotedParses(ps, rest);
      MeaningLength(ps);
  }

  lemma IdentifierIsSegment(u: Tables, s: string) returns (g: Segment)
    requires s != "" && Identifier(u, s).Ok? && Identifier(u, s).value != ""
    ensures ValidSegment(u, g) && Ends(u, g, Identifier(u, s).rest)
    ensures s == SegmentText(g) + Identifier(u, s).rest
    ensures SegmentMeaning(u, g) == Identifier(u, s).value
  {
    if s[0] == QUOTE {
      var ps := BodyIsPieces(s[1..]);
      g := Quoted(ps);
    } else {
      forall c: char ensures (Begins(u, c) <==> StartsName(u, c)) && (Continues(u, c) <==> InName(u, c)) {
        NameExact(u, c);
      }
      g := Bare(Identifier(u, s).value);
    }
  }

  // ---------------------------------------------------------------------------
  // Parsing a path

  /** A segment and a dot are read, and parsing goes on behind them. */
  lemma SegmentThenDot(u: Tables, g: Segment, more: string)
    requires ValidSegment(u, g) && (g.Bare? ==> !InName(u, '.'))
    ensures ParsePath(u, SegmentText(g) + ("." + more)) ==
            PrependPath([SegmentMeaning(u, g)], ParsePath(u, more))
  {
    SegmentParses(u, g, "." + more);
    assert ("." + more)[1..] == more;
  }

  lemma Dotted(a: string, b: string)
    ensures a + "." + b + "." == a + ("." + (b + "."))
  {}

  /** Behind a path and a dot the parser looks for an identifier that is not there. */
  lemma {:induction false} PathThenDot(u: Tables, gs: seq<Segment>)
    requires ValidPath(u, gs) && !InName(u, '.')
    ensures ParsePath(u, PathText(gs) + ".") == Panic
    decreases |gs|
  {
    if |gs| == 1 {
      assert PathText(gs) + "." == SegmentText(gs[0]) + ("." + "");
      SegmentThenDot(u, gs[0], "");
    } else {
      PathThenDot(u, gs[1..]);
      SegmentThenDot(u, gs[0], PathText(gs[1..]) + ".");
      Dotted(SegmentText(gs[0]), PathText(gs[1..]));
    }
  }

  /** A text of the grammar is parsed with its meaning, and nothing is left over. */
  lemma {:induction false} PathParses(u: Tables, gs: seq<Segment>)
    requires ValidPath(u, gs) && !InName(u, '.')
    ensures ParsePath(u, PathText(gs)) == Ok(PathMeaning(u, gs), "")
    decreases |gs|
  {
    if |gs| == 1 {
      SegmentParses(u, gs[0], "");
      assert SegmentText(gs[0]) + "" == PathText(gs);
    } else {
      SegmentThenDot(u, gs[0], PathText(gs[1..]));
      assert PathText(gs) == SegmentText(gs[0]) + ("." + PathText(gs[1..]));
      PathParses(u, gs[1..]);
    }
  }

  lemma DotStep(u: Tables, s: string, id: string, more: string)
    requires s != "" && id != "" && Identifier(u, s) == Ok(id, "." + more)
    ensures ParsePath(u, s) == PrependPath([id], ParsePath(u, more))
  {
    assert ("." + more)[1..] == more;
  }

  /** Where parsing goes on, a dot follows. */
  lemma DotFollows(u: Tables, s: string)
    requires s != "" && (ParsePath(u, s).Ok? || ParsePath(u, s) == Panic)
    ensures Identifier(u, s).Ok? && Identifier(u, s).value != ""
    ensures Identifier(u, s).rest == "" || Identifier(u, s).rest[0] == '.'
    ensures ParsePath(u, s) == Panic ==> Identifier(u, s).rest != ""
  {}

  /** Where parsing goes on behind a dot, what came before is a segment. */
  lemma SegmentBeforeDot(u: Tables, s: string) returns (g: Segment, more: string)
    requires s != "" && Identifier(u, s).Ok? && Identifier(u, s).value != ""
    requires Identifier(u, s).rest != "" && Identifier(u, s).rest[0] == '.'
    ensures ValidSegment(u, g) && s == SegmentText(g) + "." + more && |more| < |s|
    ensures ParsePath(u, s) == PrependPath([SegmentMeaning(u, g)], ParsePath(u, more))
  {
    g := IdentifierIsSegment(u, s);
    var rest := Identifier(u, s).rest;
    more := rest[1..];
    assert rest == "." + more;
    DotStep(u, s, Identifier(u, s).value, more);
    Regroup(SegmentText(g), ".", more);
  }

  lemma Regroup(a: string, b: string, c: string)
    ensures a + b + c == a + (b + c)
  {}

  lemma ConsPath(u: Tables, g: Segment, gs: seq<Segment>)
    requires ValidSegment(u, g) && ValidPath(u, gs)
    ensures ValidPath(u, [g] + gs)
    ensures PathText([g] + gs) == SegmentText(g) + "." + PathText(gs)
    ensures PathMeaning(u, [g] + gs) == [SegmentMeaning(u, g)] + PathMeaning(u, gs)
  {
    assert ([g] + gs)[1..] == gs;
  }

  /** Whatever is parsed is a text of the grammar. */
  lemma {:induction false} ParsedIsPath(u: Tables, s: string) returns (gs: seq<Segment>)
    requires ParsePath(u, s).Ok?
    ensures ValidPath(u, gs) && s == PathText(gs)
    ensures ParsePath(u, s) == Ok(PathMeaning(u, gs), "")
    decreases |s|
  {
    DotFollows(u, s);
    if Identifier(u, s).rest == "" {
      var g := IdentifierIsSegment(u, s);
      gs := [g];
    } else {
      var g, more := SegmentBeforeDot(u, s);
      var tail := ParsedIsPath(u, more);
      ConsPath(u, g, tail);
      gs := [g] + tail;
    }
  }

  /** The dot separates: Unicode counts it as pattern syntax. */
  predicate DotSeparates(u: Tables) {
    u.pattern('.')
  }

  /** The parser yields `ids` on exactly the texts of the grammar that mean `ids`. */
  lemma ParserIsGrammar(u: Tables, s: string, ids: seq<string>, rest: string)
    requires DotSeparates(u)
    ensures ParsePath(u, s) == Ok(ids, rest) <==>
            rest == "" && exists gs :: ValidPath(u, gs) && PathText(gs) == s && PathMeaning(u, gs) == ids
  {
    if ParsePath(u, s) == Ok(ids, rest) {
      var gs := ParsedIsPath(u, s);
    }
    forall gs | ValidPath(u, gs) && PathText(gs) == s ensures ParsePath(u, s) == Ok(PathMeaning(u, gs), "") {
      PathParses(u, gs);
    }
  }

  lemma {:induction false} PanicNeedsDot(u: Tables, s: string) returns (gs: seq<Segment>)
    requires ParsePath(u, s) == Panic && s != ""
    ensures ValidPath(u, gs) && s == PathText(gs) + "."
    decreases |s|
  {
    DotFollows(u, s);
    var g, more := SegmentBeforeDot(u, s);
    if more == "" {
      gs := [g];
    } else {
      var tail := PanicNeedsDot(u, more);
      ConsPath(u, g, tail);
      gs := [g] + tail;
    }
  }

  /** The read out of range happens exactly on empty input and behind a valid path that ends in a dot. */
  lemma PanicExact(u: Tables, s: string)
    requires DotSeparates(u)
    ensures ParsePath(u, s) == Panic <==>
            s == "" || exists gs :: ValidPath(u, gs) && s == PathText(gs) + "."
  {
    if ParsePath(u, s) == Panic && s != "" {
      var gs := PanicNeedsDot(u, s);
    }
    forall gs | ValidPath(u, gs) && s == PathText(gs) + "." ensures ParsePath(u, s) == Panic {
      PathThenDot(u, gs);
    }
  }

  /** Success leaves nothing over and yields a non-empty list of non-empty identifiers. */
  lemma {:induction false} ParsedIdentifiers(u: Tables, s: string)
    requires ParsePath(u, s).Ok?
    ensures ParsePath(u, s).rest == "" && ParsePath(u, s).value != []
    ensures forall id :: id in ParsePath(u, s).value ==> id != ""
    decreases |s|
  {
    var rest := Identifier(u, s).rest;
    if rest != "" {
      ParsedIdentifiers(u, rest[1..]);
    }
  }

  // ---------------------------------------------------------------------------
  // What is reported for a text that is no path

  /** Behind whole pieces of a quoted identifier, reading stops at `t` with error `e`. */
  predicate BodyBreaks(t: string, e: Error) {
    match e
    case UnterminatedQuote => t == ""
    case TruncatedEscape => 1 <= |t| <= 2 && t[0] == BACKSLASH
    case UnknownEscape => |t| >= 3 && t[0] == BACKSLASH && t[2] !in LETTERS && t[2] != 'u'
    case TruncatedCodepoint => 3 <= |t| <= 6 && t[0] == BACKSLASH && t[2] == 'u'
    case InvalidCodepoint => |t| >= 7 && t[0] == BACKSLASH && t[2] == 'u' && !AllHex(t[3..7])
    case _ => false
  }

  lemma BodyBreaksExact(t: string, e: Error)
    ensures BodyBreaks(t, e) <==> (t == "" || t[0] == BACKSLASH) && Body(t) == Failed(e) &&
                                  (t != "" ==> Escaped(t[1..]) == Failed(e))
  {
    if t != "" && t[0] == BACKSLASH {
      var s := t[1..];
      if |s| >= 2 {
        assert s[2..] == t[3..];
        if |s| >= 6 {
          assert s[2..][..4] == t[3..7];
        }
      }
    }
  }

  lemma {:induction false} PiecesThenBreak(ps: seq<Piece>, t: string, e: Error)
    requires ValidPieces(ps) && BodyBreaks(t, e)
    ensures Body(PiecesText(ps) + t) == Failed(e)
  {
    if ps == [] {
      BodyBreaksExact(t, e);
      assert PiecesText(ps) + t == t;
    } else {
      PiecesThenBreak(ps[1..], t, e);
      PieceParses(ps[0], PiecesText(ps[1..]) + t);
      Regroup(PieceText(ps[0]), PiecesText(ps[1..]), t);
    }
  }

  lemma PrependPiece(p: Piece, ps: seq<Piece>, t: string)
    requires ValidPiece(p) && ValidPieces(ps)
    ensures ValidPieces([p] + ps) && PiecesText([p] + ps) + t == PieceText(p) + (PiecesText(ps) + t)
  {
    assert ([p] + ps)[1..] == ps;
  }

  lemma {:induction false} BrokenBody(s: string) returns (ps: seq<Piece>, t: string)
    requires Body(s).Failed?
    ensures ValidPieces(ps) && s == PiecesText(ps) + t && BodyBreaks(t, Body(s).error)
    decreases |s|
  {
    if s == "" || (s[0] == BACKSLASH && !Escaped(s[1..]).Ok?) {
      EscapeNeverPanics(s);
      BodyBreaksExact(s, Body(s).error);
      ps, t := [], s;
    } else {
      var p, rest;
      if s[0] == BACKSLASH {
        p := EscapeIsPiece(s);
        rest := Escaped(s[1..]).rest;
      } else {
        p, rest := Raw(s[0]), s[1..];
      }
      var more;
      more, t := BrokenBody(rest);
      PrependPiece(p, more, t);
      ps := [p] + more;
    }
  }

  lemma EscapeNeverPanics(s: string)
    ensures s != "" ==> !Escaped(s[1..]).Panic?
  {}

  /** Reading a quoted identifier fails with `e` exactly where `BodyBreaks` says so behind whole pieces. */
  lemma BodyFailsExact(s: string, e: Error)
    ensures Body(s) == Failed(e) <==>
            exists ps, t :: ValidPieces(ps) && s == PiecesText(ps) + t && BodyBreaks(t, e)
  {
    if Body(s) == Failed(e) {
      var ps, t := BrokenBody(s);
    }
    forall ps, t | ValidPieces(ps) && s == PiecesText(ps) + t && BodyBreaks(t, e) ensures Body(s) == Failed(e) {
      PiecesThenBreak(ps, t, e);
    }
  }

  /** An identifier that is not there: nothing between quotes, or no character to start one. */
  predicate NoIdentifier(u: Tables, t: string) {
    t != "" && if t[0] == QUOTE then |t| > 1 && t[1] == QUOTE else !StartsName(u, t[0])
  }

  /** Where an identifier is looked for, reading stops at `t` with error `e`. */
  ghost predicate SegmentBreaks(u: Tables, t: string, e: Error) {
    || (e == EmptyIdentifier && NoIdentifier(u, t))
    || (e == ExpectedDot && exists g, rest ::
          ValidSegment(u, g) && t == SegmentText(g) + rest && Ends(u, g, rest) && rest != "" && rest[0] != '.')
    || (t != "" && t[0] == QUOTE && exists ps, b ::
          ValidPieces(ps) && t[1..] == PiecesText(ps) + b && BodyBreaks(b, e))
  }

  lemma NoIdentifierExact(u: Tables, t: string)
    requires t != ""
    ensures NoIdentifier(u, t) <==> Identifier(u, t).Ok? && Identifier(u, t).value == ""
  {
    NameExact(u, t[0]);
    if t[0] == QUOTE && Body(t[1..]).Ok? && Body(t[1..]).value == "" {
      var ps := BodyIsPieces(t[1..]);
      MeaningLength(ps);
    }
  }

  lemma WrongSeparator(u: Tables, g: Segment, rest: string)
    requires ValidSegment(u, g) && Ends(u, g, rest) && rest != "" && rest[0] != '.'
    ensures ParsePath(u, SegmentText(g) + rest) == Failed(ExpectedDot)
  {
    SegmentParses(u, g, rest);
  }

  lemma BrokenQuote(u: Tables, t: string, ps: seq<Piece>, b: string, e: Error)
    requires t != "" && t[0] == QUOTE
    requires ValidPieces(ps) && t[1..] == PiecesText(ps) + b && BodyBreaks(b, e)
    ensures ParsePath(u, t) == Failed(e)
  {
    PiecesThenBreak(ps, b, e);
  }

  lemma BreaksFail(u: Tables, t: string, e: Error)
    requires SegmentBreaks(u, t, e)
    ensures ParsePath(u, t) == Failed(e)
  {
    if e == EmptyIdentifier && NoIdentifier(u, t) {
      NoIdentifierExact(u, t);
    } else if g, rest :| e == ExpectedDot && ValidSegment(u, g) && t == SegmentText(g) + rest &&
                         Ends(u, g, rest) && rest != "" && rest[0] != '.' {
      WrongSeparator(u, g, rest);
    } else {
      var ps, b :| ValidPieces(ps) && t[1..] == PiecesText(ps) + b && BodyBreaks(b, e);
      BrokenQuote(u, t, ps, b, e);
    }
  }

  lemma FailsAtOnce(u: Tables, t: string, e: Error)
    requires t != "" && ParsePath(u, t) == Failed(e)
    requires Identifier(u, t).Ok? && Identifier(u, t).value != "" ==>
               Identifier(u, t).rest != "" && Identifier(u, t).rest[0] != '.'
    ensures SegmentBreaks(u, t, e)
  {
    if Identifier(u, t).Ok? {
      NoIdentifierExact(u, t);
      if Identifier(u, t).value != "" {
        var g := IdentifierIsSegment(u, t);
        assert t == SegmentText(g) + Identifier(u, t).rest;
      }
    } else {
      BodyFailsExact(t[1..], e);
    }
  }

  /** Identifiers with a dot behind each. */
  function DottedText(gs: seq<Segment>): string {
    if gs == [] then "" else SegmentText(gs[0]) + ("." + DottedText(gs[1..]))
  }

  ghost predicate AllValid(u: Tables, gs: seq<Segment>) {
    forall i :: 0 <= i < |gs| ==> ValidSegment(u, gs[i])
  }

  lemma {:induction false} DottedThenBreak(u: Tables, gs: seq<Segment>, t: string, e: Error)
    requires AllValid(u, gs) && SegmentBreaks(u, t, e) && !InName(u, '.')
    ensures ParsePath(u, DottedText(gs) + t) == Failed(e)
    decreases |gs|
  {
    if gs == [] {
      assert DottedText(gs) + t == t;
      BreaksFail(u, t, e);
    } else {
      DottedThenBreak(u, gs[1..], t, e);
      SegmentThenDot(u, gs[0], DottedText(gs[1..]) + t);
      Regroup(SegmentText(gs[0]), "." + DottedText(gs[1..]), t);
      Regroup(".", DottedText(gs[1..]), t);
    }
  }

  lemma ConsDotted(u: Tables, g: Segment, gs: seq<Segment>, t: string)
    requires ValidSegment(u, g) && AllValid(u, gs)
    ensures AllValid(u, [g] + gs)
    ensures DottedText([g] + gs) + t == SegmentText(g) + "." + (DottedText(gs) + t)
  {
    assert ([g] + gs)[1..] == gs;
  }

  lemma {:induction false} BrokenPath(u: Tables, s: string) returns (gs: seq<Segment>, t: string)
    requires ParsePath(u, s).Failed?
    ensures AllValid(u, gs) && s == DottedText(gs) + t && SegmentBreaks(u, t, ParsePath(u, s).error)
    decreases |s|
  {
    var id := Identifier(u, s);
    if id.Ok? && id.value != "" && id.rest != "" && id.rest[0] == '.' {
      var g, more := SegmentBeforeDot(u, s);
      var tail;
      tail, t := BrokenPath(u, more);
      ConsDotted(u, g, tail, t);
      gs := [g] + tail;
    } else {
      FailsAtOnce(u, s, ParsePath(u, s).error);
      gs, t := [], s;
    }
  }

  /** The parser reports `e` exactly where, behind whole identifiers and their dots, reading stops with `e`. */
  lemma FailureExact(u: Tables, s: string, e: Error)
    requires DotSeparates(u)
    ensures ParsePath(u, s) == Failed(e) <==>
            exists gs, t :: AllValid(u, gs) && s == DottedText(gs) + t && SegmentBreaks(u, t, e)
  {
    if ParsePath(u, s) == Failed(e) {
      var gs, t := BrokenPath(u, s);
    }
    forall gs, t | AllValid(u, gs) && s == DottedText(gs) + t && SegmentBreaks(u, t, e)
      ensures ParsePath(u, s) == Failed(e)
    {
      DottedThenBreak(u, gs, t, e);
    }
  }

  // ---------------------------------------------------------------------------
  // Printing and parsing back

  /** Section 7 of RFC 8259: the quote, the backslash and the control characters have to be escaped. */
  predicate Special(c: char) {
    c == QUOTE || c == BACKSLASH || c < ' '
  }

  /** Those for which there is an escape of two characters. */
  predicate HasShort(c: char) {
    c in {QUOTE, BACKSLASH, '\U{8}', '\U{C}', '\n', '\r', '\t'}
  }

  function Letter(c: char): (l: char)
    requires HasShort(c)
    ensures l in LETTERS && ShortEscape(l) == c
  {
    if c == '\U{8}' then 'b'
    else if c == '\U{C}' then 'f'
    else if c == '\n' then 'n'
    else if c == '\r' then 'r'
    else if c == '\t' then 't'
    else c
  }

  function HexDigit(n: nat): (h: char)
    requires n < 16
    ensures IsHex(h) && HexValue(h) == n
  {
    if n < 10 then ('0' as int + n) as char else ('a' as int + n - 10) as char
  }

  function TwoDigits(c: char): (h: string)
    requires c < ' '
    ensures AllHex(h) && Decoded(h) == c
  {
    ['0', '0', HexDigit(c as int / 16), HexDigit(c as int % 16)]
  }

  /** The spelling the parser reads: one filler between the backslash and the escaped character. */
  function PieceOf(c: char, filler: char): (p: Piece)
    ensures ValidPiece(p) && PieceMeaning(p) == c
  {
    if !Special(c) then Raw(c)
    else if HasShort(c) then Short(filler, Letter(c))
    else Code(filler, TwoDigits(c))
  }

  function Spell(id: string, filler: char): (ps: seq<Piece>)
    ensures ValidPieces(ps) && |ps| == |id|
  {
    if id == "" then [] else [PieceOf(id[0], filler)] + Spell(id[1..], filler)
  }

  lemma {:induction false} SpellMeans(id: string, filler: char)
    ensures PiecesMeaning(Spell(id, filler)) == id
  {
    if id != "" {
      SpellMeans(id[1..], filler);
      assert Spell(id, filler)[1..] == Spell(id[1..], filler);
    }
  }

  function PrintPath(ids: seq<string>, filler: char): string
    requires ids != []
  {
    var first := [QUOTE] + PiecesText(Spell(ids[0], filler)) + [QUOTE];
    if |ids| == 1 then first else first + "." + PrintPath(ids[1..], filler)
  }

  /** Printing each identifier quoted, with a filler behind every backslash, and parsing gives the list back. */
  lemma {:induction false} RoundTrip(u: Tables, ids: seq<string>, filler: char)
    requires ids != [] && forall i :: 0 <= i < |ids| ==> ids[i] != ""
    ensures ParsePath(u, PrintPath(ids, filler)) == Ok(ids, "")
    decreases |ids|
  {
    var g := Quoted(Spell(ids[0], filler));
    SpellMeans(ids[0], filler);
    assert ids == [ids[0]] + ids[1..];
    if |ids| == 1 {
      SegmentParses(u, g, "");
      assert SegmentText(g) + "" == PrintPath(ids, filler);
      assert ids == [ids[0]];
    } else {
      SegmentThenDot(u, g, PrintPath(ids[1..], filler));
      assert PrintPath(ids, filler) == SegmentText(g) + ("." + PrintPath(ids[1..], filler));
      RoundTrip(u, ids[1..], filler);
    }
  }

  // ---------------------------------------------------------------------------
  // Printing as section 7 of RFC 8259 has it, without a filler

  /** The same escapes without the filler. */
  function StandardChar(c: char): (t: string)
    ensures !Special(c) ==> t == [c]
    ensures Special(c) ==> |t| == (if HasShort(c) then 2 else 6) && t[0] == BACKSLASH
  {
    var t := PieceText(PieceOf(c, 'x'));
    if Special(c) then t[..1] + t[2..] else t
  }

  function Standard(id: string): string {
    if id == "" then "" else StandardChar(id[0]) + Standard(id[1..])
  }

  function StandardPath(ids: seq<string>): string
    requires ids != []
  {
    var first := [QUOTE] + Standard(ids[0]) + [QUOTE];
    if |ids| == 1 then first else first + "." + StandardPath(ids[1..])
  }

  function Specials(s: string): nat {
    if s == "" then 0 else (if Special(s[0]) then 1 else 0) + Specials(s[1..])
  }

  predicate NoControl(s: string) {
    forall i :: 0 <= i < |s| ==> s[i] >= ' '
  }

  lemma StandardCharNoControl(c: char)
    ensures NoControl(StandardChar(c))
  {
    if Special(c) && !HasShort(c) {
      assert StandardChar(c) == [BACKSLASH, 'u'] + TwoDigits(c);
    } else if Special(c) {
      assert StandardChar(c) == [BACKSLASH, Letter(c)];
    }
  }

  lemma {:induction false} StandardNoControl(id: string)
    ensures NoControl(Standard(id))
  {
    if id != "" {
      StandardCharNoControl(id[0]);
      StandardNoControl(id[1..]);
    }
  }

  lemma {:induction false} StandardPathNoControl(ids: seq<string>)
    requires ids != []
    ensures NoControl(StandardPath(ids))
  {
    StandardNoControl(ids[0]);
    if |ids| > 1 {
      StandardPathNoControl(ids[1..]);
    }
  }

  lemma {:induction false} SpecialsZero(id: string)
    ensures Specials(id) == 0 <==> forall i :: 0 <= i < |id| ==> !Special(id[i])
  {
    if id != "" {
      SpecialsZero(id[1..]);
      assert forall i :: 1 <= i < |id| ==> id[i] == id[1..][i - 1];
      if Specials(id) == 0 {
        forall i | 0 <= i < |id| ensures !Special(id[i]) {
          if i > 0 {
            assert id[i] == id[1..][i - 1];
          }
        }
      }
      if forall i :: 0 <= i < |id| ==> !Special(id[i]) {
        forall i | 0 <= i < |id[1..]| ensures !Special(id[1..][i]) {
          assert id[1..][i] == id[i + 1];
        }
      }
    }
  }

  lemma {:induction false} StandardIsSpelling(id: string)
    requires Specials(id) == 0
    ensures Standard(id) == PiecesText(Spell(id, 'x'))
  {
    if id != "" {
      StandardIsSpelling(id[1..]);
      assert Spell(id, 'x')[1..] == Spell(id[1..], 'x');
    }
  }

  /** An escape is longer than the standard spelling of what it means. */
  lemma EscapeIsLonger(p: Piece)
    requires ValidPiece(p) && !p.Raw?
    ensures |PieceText(p)| >= |StandardChar(PieceMeaning(p))| + if Special(PieceMeaning(p)) then 1 else 0
  {
    if p.Short? {
      assert Special(ShortEscape(p.letter)) ==> HasShort(ShortEscape(p.letter));
    }
  }

  lemma BodyOfEscape(s: string) returns (p: Piece, rest: string)
    requires Body(s).Ok? && s[0] == BACKSLASH
    ensures ValidPiece(p) && !p.Raw? && s == PieceText(p) + rest && |rest| < |s|
    ensures Body(rest) == Ok(Body(s).value[1..], Body(s).rest)
    ensures Body(s).value != "" && Body(s).value[0] == PieceMeaning(p)
  {
    p := EscapeIsPiece(s);
    rest := Escaped(s[1..]).rest;
    assert ([PieceMeaning(p)] + Body(rest).value)[1..] == Body(rest).value;
  }

  /**
    What was read without a raw control character is at least as long as the standard spelling
    of its value, and longer by one for each character of the value that needs an escape.
   */
  lemma {:induction false} BodyConsumes(s: string)
    requires Body(s).Ok? && NoControl(s)
    ensures |s| - |Body(s).rest| >= |Standard(Body(s).value)| + Specials(Body(s).value) + 1
    decreases |s|
  {
    if s[0] == QUOTE {
    } else if s[0] == BACKSLASH {
      var p, rest := BodyOfEscape(s);
      assert forall i :: 0 <= i < |rest| ==> rest[i] == s[|PieceText(p)| + i];
      BodyConsumes(rest);
      EscapeIsLonger(p);
    } else {
      BodyConsumes(s[1..]);
      assert Body(s).value[1..] == Body(s[1..]).value;
    }
  }

  predicate EndsQuoteDot(id: string) {
    |id| >= 2 && id[|id| - 2] == QUOTE && id[|id| - 1] == '.'
  }

  lemma BodyAtQuote(tail: string)
    ensures Body([QUOTE] + tail) == Ok("", tail)
  {
    assert ([QUOTE] + tail)[1..] == tail;
  }

  /** Two ways to split a string. */
  lemma SplitTwice(a: string, b: string, x: string, rest: string)
    requires a + b == x + rest && |x| <= |a|
    ensures rest == a[|x|..] + b
  {
    assert rest == (x + rest)[|x|..];
    assert (a + b)[|x|..] == a[|x|..] + b;
  }

  /** What follows the closing quote of a segment: nothing, or a dot and the next opening quote. */
  predicate QuotedNext(tail: string) {
    tail != "" ==> |tail| >= 2 && tail[0] == '.' && tail[1] == QUOTE
  }

  /** A parse that reads over the closing quote must have taken it for an escaped one. */
  lemma {:induction false} CrossingTheQuote(a: string, tail: string)
    requires QuotedNext(tail)
    requires Body(a + ([QUOTE] + tail)).Ok? && |Body(a + ([QUOTE] + tail)).rest| < |tail|
    ensures |a| >= 2 && a[|a| - 2] == BACKSLASH
    ensures EndsQuoteDot(Body(a + ([QUOTE] + tail)).value)
    decreases |a|, 1
  {
    var s := a + ([QUOTE] + tail);
    BodyAtQuote(tail);
    assert a == "" ==> s == [QUOTE] + tail;
    if a[0] == BACKSLASH {
      CrossingInEscape(a, tail);
    } else {
      assert s[1..] == a[1..] + ([QUOTE] + tail);
      CrossingTheQuote(a[1..], tail);
    }
  }

  /** No piece reaches over the closing quote except a short escape of that quote. */
  lemma PieceBeforeQuote(a: string, tail: string, p: Piece, rest: string)
    requires ValidPiece(p) && !p.Raw? && QuotedNext(tail) && tail != ""
    requires a != "" && a + ([QUOTE] + tail) == PieceText(p) + rest
    ensures |a| >= 2
    ensures |a| == 2 ==> p == Short(a[1], QUOTE) && rest == tail
    ensures |a| > 2 ==> |PieceText(p)| <= |a| && rest == a[|PieceText(p)|..] + ([QUOTE] + tail)
  {
    var s := a + ([QUOTE] + tail);
    var x := PieceText(p);
    assert s[|a|] == QUOTE && s[|a| + 1] == '.';
    assert forall i :: 0 <= i < |x| ==> s[i] == x[i];
    assert |x| > 3 ==> forall i :: 3 <= i < 7 ==> IsHex(x[i]);
    assert s[2] != '.' && x[1] == s[1] && x[2] == s[2];
    if |a| > 2 {
      SplitTwice(a, [QUOTE] + tail, x, rest);
    } else {
      assert s[2] == QUOTE && p.Short? && p.letter == x[2] && p.skipped == x[1];
      assert rest == s[3..] == tail;
    }
  }

  lemma {:induction false} CrossingInEscape(a: string, tail: string)
    requires QuotedNext(tail)
    requires Body(a + ([QUOTE] + tail)).Ok? && |Body(a + ([QUOTE] + tail)).rest| < |tail|
    requires a != "" && a[0] == BACKSLASH
    ensures |a| >= 2 && a[|a| - 2] == BACKSLASH
    ensures EndsQuoteDot(Body(a + ([QUOTE] + tail)).value)
    decreases |a|, 0
  {
    var s := a + ([QUOTE] + tail);
    var p := EscapeIsPiece(s);
    var rest := Escaped(s[1..]).rest;
    PieceBeforeQuote(a, tail, p, rest);
    assert Body(s) == Prepend([PieceMeaning(p)], Body(rest));
    if |a| == 2 {
      BodyAtQuote(tail[2..]);
      assert tail[1..] == [QUOTE] + tail[2..];
      assert Body(tail) == Prepend(".", Ok("", tail[2..]));
      assert Body(s).value == [QUOTE] + ".";
    } else {
      CrossingTheQuote(a[|PieceText(p)|..], tail);
      PrependKeepsEnd(PieceMeaning(p), Body(rest).value);
    }
  }

  lemma PrependKeepsEnd(c: char, id: string)
    requires EndsQuoteDot(id)
    ensures EndsQuoteDot([c] + id)
  {}

  lemma {:induction false} StandardQuoteDot(id: string)
    requires EndsQuoteDot(id)
    ensures |Standard(id)| >= 2 && Standard(id)[|Standard(id)| - 2] == QUOTE
  {
    if |id| > 2 {
      StandardQuoteDot(id[1..]);
    } else {
      assert id[1..] == "." && "."[1..] == "";
      assert Standard(".") == StandardChar('.') == ".";
    }
  }

  /** An identifier that needs an escape, printed the standard way, never parses back. */
  lemma StandardSpecialLost(id: string, tail: string)
    requires Specials(id) > 0 && QuotedNext(tail) && NoControl(tail)
    ensures Body(Standard(id) + ([QUOTE] + tail)).Ok? ==> Body(Standard(id) + ([QUOTE] + tail)).value != id
  {
    var s := Standard(id) + ([QUOTE] + tail);
    if EndsQuoteDot(id) {
      StandardQuoteDot(id);
    }
    StandardNoControl(id);
    if Body(s).Ok? {
      BodyConsumes(s);
      if |Body(s).rest| < |tail| {
        CrossingTheQuote(Standard(id), tail);
      }
    }
  }

  lemma {:induction false} StandardPathShape(ids: seq<string>)
    requires ids != []
    ensures |StandardPath(ids)| >= 2 && StandardPath(ids)[0] == QUOTE
  {}

  /** What follows the first identifier's closing quote. */
  function StandardTail(ids: seq<string>): string
    requires ids != []
  {
    if |ids| == 1 then "" else "." + StandardPath(ids[1..])
  }

  lemma StandardPathSplits(ids: seq<string>)
    requires ids != []
    ensures StandardPath(ids) != "" && StandardPath(ids)[0] == QUOTE
    ensures StandardPath(ids)[1..] == Standard(ids[0]) + ([QUOTE] + StandardTail(ids))
    ensures QuotedNext(StandardTail(ids)) && NoControl(StandardTail(ids))
  {
    var q := [QUOTE] + Standard(ids[0]) + [QUOTE];
    if |ids| > 1 {
      StandardPathShape(ids[1..]);
      StandardPathNoControl(ids[1..]);
      assert StandardTail(ids)[1] == StandardPath(ids[1..])[0];
      Regroup(q, ".", StandardPath(ids[1..]));
    } else {
      assert q + "" == q;
    }
    assert StandardPath(ids) == q + StandardTail(ids);
    BehindQuote(Standard(ids[0]), StandardTail(ids));
    Regroup(Standard(ids[0]), [QUOTE], StandardTail(ids));
  }

  lemma StandardPlainKept(id: string, tail: string)
    requires Specials(id) == 0
    ensures Body(Standard(id) + ([QUOTE] + tail)) == Ok(id, tail)
  {
    StandardIsSpelling(id);
    SpellMeans(id, 'x');
    PiecesParse(Spell(id, 'x'), tail);
    assert Standard(id) + ([QUOTE] + tail) == PiecesText(Spell(id, 'x')) + [QUOTE] + tail;
  }

  ghost predicate Plain(ids: seq<string>) {
    forall i :: 0 <= i < |ids| ==> Specials(ids[i]) == 0
  }

  lemma PlainStep(ids: seq<string>)
    requires ids != []
    ensures Plain(ids) <==> Specials(ids[0]) == 0 && Plain(ids[1..])
  {
    assert forall i :: 1 <= i < |ids| ==> ids[i] == ids[1..][i - 1];
    assert forall i :: 0 <= i < |ids| - 1 ==> ids[1..][i] == ids[i + 1];
  }

  /**
    Paths printed as section 7 of RFC 8259 has it are read back exactly when no identifier
    contains a quote, a backslash or a control character.
   */
  lemma {:induction false} StandardRoundTripExact(u: Tables, ids: seq<string>)
    requires ids != [] && forall i :: 0 <= i < |ids| ==> ids[i] != ""
    ensures ParsePath(u, StandardPath(ids)) == Ok(ids, "") <==> Plain(ids)
    decreases |ids|
  {
    StandardPathSplits(ids);
    PlainStep(ids);
    if Specials(ids[0]) > 0 {
      StandardSpecialLost(ids[0], StandardTail(ids));
      FirstOfPath(u, StandardPath(ids));
    } else {
      StandardPlainKept(ids[0], StandardTail(ids));
      if |ids| > 1 {
        StandardRoundTripExact(u, ids[1..]);
        StandardStep(u, ids);
      } else {
        assert ids == [ids[0]] && Plain(ids[1..]);
      }
    }
  }

  /** No identifier has a special character exactly when no character of one is special. */
  lemma PlainExact(ids: seq<string>)
    ensures Plain(ids) <==> forall i, j :: 0 <= i < |ids| && 0 <= j < |ids[i]| ==> !Special(ids[i][j])
  {
    forall i | 0 <= i < |ids| ensures Specials(ids[i]) == 0 <==> forall j :: 0 <= j < |ids[i]| ==> !Special(ids[i][j]) {
      SpecialsZero(ids[i]);
    }
  }

  lemma FirstOfPath(u: Tables, s: string)
    requires s != ""
    ensures ParsePath(u, s).Ok? ==>
            Identifier(u, s).Ok? && ParsePath(u, s).value != [] && ParsePath(u, s).value[0] == Identifier(u, s).value
  {}

  lemma StandardStep(u: Tables, ids: seq<string>)
    requires |ids| > 1 && ids[0] != ""
    requires Identifier(u, StandardPath(ids)) == Ok(ids[0], "." + StandardPath(ids[1..]))
    ensures ParsePath(u, StandardPath(ids)) == Ok(ids, "") <==>
            ParsePath(u, StandardPath(ids[1..])) == Ok(ids[1..], "")
  {
    var rest := "." + StandardPath(ids[1..]);
    assert rest[1..] == StandardPath(ids[1..]);
    assert [ids[0]] + ids[1..] == ids;
    var r := ParsePath(u, rest[1..]);
    if r.Ok? && [ids[0]] + r.value == ids {
      assert ([ids[0]] + r.value)[1..] == r.value;
    }
  }
}
