/** What a resolved path spells: each piece of a pattern shows as one sanitized text, and nothing else is
    in the path. */
module Spelling {
  import opened Options
  import opened SafeFilename
  import opened Texts
  import opened Patterns
  import opened PatternLaws

  // ----- Pieces of a pattern string -----------------------------------------

  datatype Piece = Lit(text: string) | Tok(name: string)

  function PieceSource(p: Piece): string {
    match p
    case Lit(text) => text
    case Tok(name) => "{" + (name + "}")
  }

  function Source(pieces: seq<Piece>): string {
    if pieces == [] then "" else PieceSource(pieces[0]) + Source(pieces[1..])
  }

  /** A token ends at the first closing brace; a literal runs up to the next opening brace or to the end, or
      starts at an opening brace that is never closed. */
  ghost predicate Lexed(pieces: seq<Piece>) {
    pieces == [] || (LexedPiece(pieces[0], Source(pieces[1..])) && Lexed(pieces[1..]))
  }

  ghost predicate LexedPiece(p: Piece, rest: string) {
    match p
    case Tok(name) => '}' !in name
    case Lit(text) =>
      && text != ""
      && if text[0] == '{' then '}' !in text && rest == "" else '{' !in text && (rest == "" || rest[0] == '{')
  }

  // ----- What one piece shows -----------------------------------------------

  /** The error of the sanitizer as the resolvers report it. */
  ghost predicate Carries(error: SanitizeError, e: ResolveError) {
    match error
    case PathTraversal(s) => e == ResolveError.PathTraversal(s)
    case ReservedName(s) => e == ResolveError.ReservedName(s)
    case UnicodeConfusable(token, value) => e == ResolveError.UnicodeConfusable(token, value)
    case EmptyAfterSanitize(_, value) => e == EmptySegment(value)
  }

  predicate Present(x: Context, def: TokenDefinition) {
    def.sourceField in x.bundle && x.bundle[def.sourceField] != ""
  }

  /** The bundle entry of a token when it is present and not empty, and the fallback otherwise, in the case
      its definition asks for. */
  function Value(x: Context, def: TokenDefinition): string {
    var raw := if Present(x, def) then x.bundle[def.sourceField] else def.fallback;
    match def.transform
    case Lower => x.unicode.lower(raw)
    case Upper => x.unicode.upper(raw)
    case _ => raw
  }

  /** A literal shows as its sanitized text; a token as its sanitized value, or as its fallback when the
      sanitizer leaves nothing of the value. */
  ghost predicate Shows(x: Context, p: Piece, text: string) {
    match p
    case Lit(t) => Sanitize(x.unicode, "literal", t) == Ok(text)
    case Tok(name) =>
      && name in x.registry
      && var def := x.registry[name];
         || Sanitize(x.unicode, name, Value(x, def)) == Ok(text)
         || (Sanitize(x.unicode, name, Value(x, def)) == Err(EmptyAfterSanitize(name, Value(x, def)))
             && text == def.fallback)
  }

  /** A literal fails when the sanitizer refuses it, a token when it is unregistered or the sanitizer refuses
      its value for a reason other than emptiness. */
  ghost predicate Fails(x: Context, p: Piece, e: ResolveError) {
    match p
    case Lit(t) =>
      && Sanitize(x.unicode, "literal", t).Err?
      && Carries(Sanitize(x.unicode, "literal", t).error, e)
    case Tok(name) =>
      if name !in x.registry then e == UnknownToken(name)
      else
        var answer := Sanitize(x.unicode, name, Value(x, x.registry[name]));
        answer.Err? && !answer.error.EmptyAfterSanitize? && Carries(answer.error, e)
  }

  function Concat(texts: seq<string>): string {
    if texts == [] then "" else texts[0] + Concat(texts[1..])
  }

  /** All pieces show, and the result is their texts in order; or the first that does not gives the error. */
  ghost predicate Spelled(x: Context, pieces: seq<Piece>, texts: seq<string>, r: Result<string, ResolveError>) {
    && |texts| <= |pieces|
    && (forall i :: 0 <= i < |texts| ==> Shows(x, pieces[i], texts[i]))
    && match r
       case Ok(s) => |texts| == |pieces| && s == Concat(texts)
       case Err(e) => |texts| < |pieces| && Fails(x, pieces[|texts|], e)
  }

  // ----- One segment --------------------------------------------------------

  lemma EmptiedCarriesRaw(u: Unicode, token: string, raw: string)
    requires Sanitize(u, token, raw).Err? && Sanitize(u, token, raw).error.EmptyAfterSanitize?
    ensures Sanitize(u, token, raw).error == EmptyAfterSanitize(token, raw)
  {
    hide NamesDevice, Confusable, SubstituteReserved, NormalizeAndStrip;
  }

  lemma TokenSpells(x: Context, name: string)
    ensures match TokenWalk(x, name).result
            case Ok(text) => Shows(x, Tok(name), text)
            case Err(e) => Fails(x, Tok(name), e)
  {
    hide Sanitize;
    if name in x.registry {
      var value := Value(x, x.registry[name]);
      var answer := Sanitize(x.unicode, name, value);
      if answer.Err? && answer.error.EmptyAfterSanitize? {
        EmptiedCarriesRaw(x.unicode, name, value);
      }
    }
  }

  lemma LiteralSpells(x: Context, text: string)
    ensures match Literal(x, text)
            case Ok(shown) => Shows(x, Lit(text), shown)
            case Err(e) => Fails(x, Lit(text), e)
  {
    hide Sanitize;
  }

  /** One answer after another: both texts, or the first error. */
  function Following(first: Result<string, ResolveError>, rest: Result<string, ResolveError>):
    Result<string, ResolveError>
  {
    if first.Err? then first else if rest.Err? then rest else Ok(first.value + rest.value)
  }

  lemma NothingSpelled(x: Context)
    ensures Spelled(x, [], [], Ok(""))
  {}

  lemma SpelledPrepend(x: Context, p: Piece, text: string, pieces: seq<Piece>, texts: seq<string>,
                       r: Result<string, ResolveError>)
    requires Shows(x, p, text) && Spelled(x, pieces, texts, r)
    ensures Spelled(x, [p] + pieces, [text] + texts, Following(Ok(text), r))
  {
    hide Shows, Fails;
    var ps, ts := [p] + pieces, [text] + texts;
    assert ts[1..] == texts;
    forall i | 0 <= i < |ts| ensures Shows(x, ps[i], ts[i]) {
      if i > 0 {
        assert ps[i] == pieces[i - 1] && ts[i] == texts[i - 1];
      }
    }
  }

  lemma SpelledFails(x: Context, p: Piece, pieces: seq<Piece>, e: ResolveError)
    requires Fails(x, p, e)
    ensures Spelled(x, [p] + pieces, [], Err(e))
  {
    hide Shows, Fails;
    assert ([p] + pieces)[0] == p;
  }

  /** One piece in front, whatever it answers. */
  lemma Lead(x: Context, p: Piece, answer: Result<string, ResolveError>, pieces: seq<Piece>, texts: seq<string>,
             r: Result<string, ResolveError>) returns (all: seq<string>)
    requires match answer case Ok(text) => Shows(x, p, text) case Err(e) => Fails(x, p, e)
    requires Spelled(x, pieces, texts, r)
    ensures Spelled(x, [p] + pieces, all, Following(answer, r))
  {
    hide Shows, Fails, Spelled;
    match answer
    case Ok(text) =>
      SpelledPrepend(x, p, text, pieces, texts, r);
      all := [text] + texts;
    case Err(e) =>
      SpelledFails(x, p, pieces, e);
      all := [];
  }

  lemma SourcePrepend(p: Piece, pieces: seq<Piece>)
    ensures Source([p] + pieces) == PieceSource(p) + Source(pieces)
    ensures Lexed([p] + pieces) <==> LexedPiece(p, Source(pieces)) && Lexed(pieces)
  {
    assert ([p] + pieces)[1..] == pieces;
  }

  /** A single literal that reaches to the end. */
  lemma LastLiteral(x: Context, text: string) returns (pieces: seq<Piece>, texts: seq<string>)
    requires text != "" && (text[0] == '{' ==> '}' !in text) && (text[0] != '{' ==> '{' !in text)
    ensures Lexed(pieces) && Source(pieces) == text && Spelled(x, pieces, texts, Literal(x, text))
  {
    hide Spelled, Shows, Fails, Literal;
    LiteralSpells(x, text);
    NothingSpelled(x);
    texts := Lead(x, Lit(text), Literal(x, text), [], [], Ok(""));
    pieces := [Lit(text)] + [];
    SourcePrepend(Lit(text), []);
    assert text + "" == text;
    if Literal(x, text).Ok? {
      assert Literal(x, text).value + "" == Literal(x, text).value;
    }
  }

  lemma {:induction false} SegmentSpells(x: Context, rest: string) returns (pieces: seq<Piece>, texts: seq<string>)
    ensures Lexed(pieces) && Source(pieces) == rest && Spelled(x, pieces, texts, SegmentWalk(x, rest).result)
    decreases |rest|, 1
  {
    hide Spelled, Shows, Fails, Literal, BraceWalk, Lexed, Source, Find;
    if rest == "" {
      NothingSpelled(x);
      NothingLexed();
      pieces, texts := [], [];
    } else if '{' !in rest {
      FindAbsent(rest, '{');
      pieces, texts := LastLiteral(x, rest);
    } else {
      AroundFound(rest, '{');
      var open := Find(rest, '{').value;
      var before, tail := rest[..open], rest[open..];
      assert rest == before + tail && tail[0] == '{';
      pieces, texts := BraceSpells(x, tail);
      SegmentResult(x, before, tail);
      if open > 0 {
        LiteralSpells(x, before);
        texts := Lead(x, Lit(before), Literal(x, before), pieces, texts, BraceWalk(x, tail).result);
        SourcePrepend(Lit(before), pieces);
        pieces := [Lit(before)] + pieces;
      }
    }
  }

  lemma SegmentResult(x: Context, before: string, tail: string)
    requires '{' !in before && tail != "" && tail[0] == '{'
    ensures SegmentWalk(x, before + tail).result
         == if before == "" then BraceWalk(x, tail).result else Following(Literal(x, before), BraceWalk(x, tail).result)
  {
    hide Literal, BraceWalk, Find;
    FindAfter(before, tail, '{');
    FindAt(tail, '{', 0);
    assert (before + tail)[..|before|] == before && (before + tail)[|before|..] == tail;
    if before == "" && BraceWalk(x, tail).result.Ok? {
      assert "" + BraceWalk(x, tail).result.value == BraceWalk(x, tail).result.value;
    }
  }

  lemma UnclosedBrace(x: Context, rest: string)
    requires rest != "" && '}' !in rest[1..]
    ensures BraceWalk(x, rest).result == Literal(x, rest)
  {
    hide Literal;
    FindAbsent(rest[1..], '}');
  }

  lemma BraceResult(x: Context, name: string, tail: string)
    requires '}' !in name
    ensures BraceWalk(x, "{" + (name + ("}" + tail))).result
         == Following(TokenWalk(x, name).result, SegmentWalk(x, tail).result)
  {
    hide TokenWalk, SegmentWalk, Find;
    var t := name + ("}" + tail);
    assert ("{" + t)[1..] == t;
    FindAfter(name, "}" + tail, '}');
    FindAt("}" + tail, '}', 0);
    assert t[..|name|] == name && t[|name| + 1..] == tail;
  }

  lemma NothingLexed()
    ensures Lexed([]) && Source([]) == ""
  {}

  lemma {:induction false} BraceSpells(x: Context, rest: string) returns (pieces: seq<Piece>, texts: seq<string>)
    requires rest != "" && rest[0] == '{'
    ensures Lexed(pieces) && Source(pieces) == rest && Spelled(x, pieces, texts, BraceWalk(x, rest).result)
    decreases |rest|, 0
  {
    hide Spelled, Shows, Fails, Literal, TokenWalk, SegmentWalk, BraceWalk, Lexed, Source;
    assert rest == [rest[0]] + rest[1..];
    if '}' !in rest[1..] {
      UnclosedBrace(x, rest);
      pieces, texts := LastLiteral(x, rest);
    } else {
      AroundFound(rest[1..], '}');
      var close := Find(rest[1..], '}').value;
      var name, tail := rest[1..][..close], rest[1..][close + 1..];
      Regroup(name, "}", tail);
      Regroup("{", name + "}", tail);
      BraceResult(x, name, tail);
      pieces, texts := SegmentSpells(x, tail);
      TokenSpells(x, name);
      texts := Lead(x, Tok(name), TokenWalk(x, name).result, pieces, texts, SegmentWalk(x, tail).result);
      SourcePrepend(Tok(name), pieces);
      pieces := [Tok(name)] + pieces;
    }
  }

  // ----- A text has one lexing ----------------------------------------------

  lemma SourceStarts(pieces: seq<Piece>)
    requires pieces != [] && Lexed(pieces)
    ensures Source(pieces) != ""
    ensures Source(pieces)[0] == '{' <==> pieces[0].Tok? || pieces[0].text[0] == '{'
  {
    assert PieceSource(pieces[0]) != "";
    assert Source(pieces)[0] == PieceSource(pieces[0])[0];
  }

  lemma SameHead(a: string, b: string, r: string, s: string, c: char)
    requires a + r == b + s && c !in a && c !in b
    requires (r == "" || r[0] == c) && (s == "" || s[0] == c)
    ensures a == b && r == s
  {
    FindAfter(a, r, c);
    FindAfter(b, s, c);
    if r != "" {
      FindAt(r, c, 0);
    }
    if s != "" {
      FindAt(s, c, 0);
    }
    hide Find;
    assert |a| == |b|;
    assert (a + r)[..|a|] == a && (b + s)[..|b|] == b && (a + r)[|a|..] == r && (b + s)[|b|..] == s;
  }

  lemma {:induction false} LexingIsUnique(a: seq<Piece>, b: seq<Piece>)
    requires Lexed(a) && Lexed(b) && Source(a) == Source(b)
    ensures a == b
    decreases |a|
  {
    if a != [] && b != [] {
      SourceStarts(a);
      SourceStarts(b);
      FirstPieceIsUnique(a, b);
      LexingIsUnique(a[1..], b[1..]);
      assert a == [a[0]] + a[1..] && b == [b[0]] + b[1..];
    } else if a != [] {
      SourceStarts(a);
    } else if b != [] {
      SourceStarts(b);
    }
  }

  lemma FirstPieceIsUnique(a: seq<Piece>, b: seq<Piece>)
    requires a != [] && b != [] && Lexed(a) && Lexed(b) && Source(a) == Source(b)
    ensures a[0] == b[0] && Source(a[1..]) == Source(b[1..])
  {
    SourceStarts(a);
    SourceStarts(b);
    var r, s := Source(a[1..]), Source(b[1..]);
    hide Lexed, Source;
    match (a[0], b[0])
    case (Tok(m), Tok(n)) =>
      TokenSource(m, r);
      TokenSource(n, s);
      assert ("{" + (m + ("}" + r)))[1..] == m + ("}" + r) && ("{" + (n + ("}" + s)))[1..] == n + ("}" + s);
      SameHead(m, n, "}" + r, "}" + s, '}');
      assert ("}" + r)[1..] == r && ("}" + s)[1..] == s;
    case (Lit(m), Lit(n)) =>
      if m[0] == '{' {
        assert m + r == m && n + s == n;
      } else {
        SameHead(m, n, r, s, '{');
      }
    case (Tok(m), Lit(n)) => TokenIsNoLiteral(m, r, n, s);
    case (Lit(m), Tok(n)) => TokenIsNoLiteral(n, s, m, r);
  }

  lemma TokenIsNoLiteral(name: string, rest: string, text: string, tail: string)
    requires '}' !in text && tail == ""
    ensures PieceSource(Tok(name)) + rest != text + tail
  {
    TokenSource(name, rest);
    var t := "{" + (name + ("}" + rest));
    assert t[|name| + 1] == '}';
    assert text + tail == text;
  }

  lemma TokenSource(name: string, rest: string)
    ensures PieceSource(Tok(name)) + rest == "{" + (name + ("}" + rest))
  {
    Regroup("{", name + "}", rest);
    Regroup(name, "}", rest);
  }

  // ----- Whole patterns -----------------------------------------------------

  /** A segment, lexed into pieces, spells the level `r`, or its first failing piece gives the error `r`. */
  ghost predicate LevelSpelled(x: Context, segment: string, r: Result<string, ResolveError>) {
    exists pieces, texts :: Lexed(pieces) && Source(pieces) == segment && Spelled(x, pieces, texts, r)
  }

  ghost predicate LevelsSpelled(x: Context, segments: seq<string>, levels: seq<string>) {
    |levels| == |segments| && forall i :: 0 <= i < |levels| ==> LevelSpelled(x, segments[i], Ok(levels[i]))
  }

  /** The segments in front of some segment are spelled, and that one fails. */
  ghost predicate SomeLevelFails(x: Context, segments: seq<string>, e: ResolveError) {
    exists levels :: SegmentFails(x, segments, levels, e)
  }

  ghost predicate SegmentFails(x: Context, segments: seq<string>, levels: seq<string>, e: ResolveError) {
    && |levels| < |segments|
    && LevelsSpelled(x, segments[..|levels|], levels)
    && LevelSpelled(x, segments[|levels|], Err(e))
  }

  lemma OneLevelSpelled(x: Context, segment: string)
    ensures LevelSpelled(x, segment, SegmentWalk(x, segment).result)
  {
    var pieces, texts := SegmentSpells(x, segment);
  }

  lemma LevelsPrepend(x: Context, segment: string, level: string, segments: seq<string>, levels: seq<string>)
    requires LevelSpelled(x, segment, Ok(level)) && LevelsSpelled(x, segments, levels)
    ensures LevelsSpelled(x, [segment] + segments, [level] + levels)
  {
    hide LevelSpelled;
    var ss, ls := [segment] + segments, [level] + levels;
    forall i | 0 <= i < |ls| ensures LevelSpelled(x, ss[i], Ok(ls[i])) {
      if i > 0 {
        assert ss[i] == segments[i - 1] && ls[i] == levels[i - 1];
      }
    }
  }

  lemma FailurePrepend(x: Context, segment: string, level: string, segments: seq<string>, e: ResolveError)
    requires LevelSpelled(x, segment, Ok(level)) && SomeLevelFails(x, segments, e)
    ensures SomeLevelFails(x, [segment] + segments, e)
  {
    hide LevelSpelled;
    var levels :| SegmentFails(x, segments, levels, e);
    LevelsPrepend(x, segment, level, segments[..|levels|], levels);
    var ss := [segment] + segments;
    assert ss[..|levels| + 1] == [segment] + segments[..|levels|];
    assert SegmentFails(x, ss, [level] + levels, e);
  }

  lemma FailureFirst(x: Context, segment: string, segments: seq<string>, e: ResolveError)
    requires LevelSpelled(x, segment, Err(e))
    ensures SomeLevelFails(x, [segment] + segments, e)
  {
    hide LevelSpelled;
    var ss := [segment] + segments;
    assert ss[..0] == [];
    assert SegmentFails(x, ss, [], e);
  }

  lemma {:induction false} SegmentsSpell(x: Context, segments: seq<string>)
    ensures SegmentsWalk(x, segments).result.Ok? ==>
              LevelsSpelled(x, NonEmpty(segments), SegmentsWalk(x, segments).result.value)
    ensures SegmentsWalk(x, segments).result.Err? ==>
              SomeLevelFails(x, NonEmpty(segments), SegmentsWalk(x, segments).result.error)
  {
    hide SegmentWalk, LevelSpelled, LevelsSpelled, SomeLevelFails;
    if segments == [] {
      NoLevels(x);
    } else {
      SegmentsSpell(x, segments[1..]);
      if segments[0] == "" {
        var none: seq<string> := [];
        assert none + NonEmpty(segments[1..]) == NonEmpty(segments[1..]);
      } else {
        OneLevelSpelled(x, segments[0]);
        match SegmentWalk(x, segments[0]).result
        case Err(e) => FailureFirst(x, segments[0], NonEmpty(segments[1..]), e);
        case Ok(level) =>
          match SegmentsWalk(x, segments[1..]).result
          case Ok(levels) => LevelsPrepend(x, segments[0], level, NonEmpty(segments[1..]), levels);
          case Err(e) => FailurePrepend(x, segments[0], level, NonEmpty(segments[1..]), e);
      }
    }
  }

  lemma NoLevels(x: Context)
    ensures LevelsSpelled(x, [], [])
  {}

  /** All segments are spelled, and the check of the assembled path fails. */
  ghost predicate SpelledPathFails(x: Context, config: Config, segments: seq<string>, e: ResolveError) {
    exists levels :: LevelsSpelled(x, segments, levels) && CheckFails(x, config, Join(levels, '/'), e)
  }

  ghost predicate CheckFails(x: Context, config: Config, path: string, e: ResolveError) {
    AssembledFault(x.unicode, config, path) == Some(e)
  }

  /** A path resolved from a pattern string is, level by level, what the pieces of its non-empty segments
      show, joined by slashes and nothing more. An error comes from a blank pattern, from the first piece
      that fails, or from the check of the path so spelled. */
  lemma PatternPathIsSpelled(x: Context, config: Config, pattern: string)
    ensures PatternOutcome(x, config, pattern).Ok? ==>
              exists levels :: LevelsSpelled(x, NonEmpty(Split(pattern, '/')), levels)
                && PatternOutcome(x, config, pattern).value.relativePath == Join(levels, '/')
    ensures PatternOutcome(x, config, pattern).Err? ==>
              || (IsBlank(pattern) && PatternOutcome(x, config, pattern).error == Empty)
              || SomeLevelFails(x, NonEmpty(Split(pattern, '/')), PatternOutcome(x, config, pattern).error)
              || SpelledPathFails(x, config, NonEmpty(Split(pattern, '/')), PatternOutcome(x, config, pattern).error)
  {
    hide SegmentsWalk, LevelsSpelled, SomeLevelFails, AssembledFault, Split, NonEmpty, Join, IsBlank;
    SegmentsSpell(x, Split(pattern, '/'));
    var w := PatternWalk(x, pattern);
    if w.result.Ok? {
      assert LevelsSpelled(x, NonEmpty(Split(pattern, '/')), w.result.value);
    }
  }

  // ----- Part lists ---------------------------------------------------------

  /** A token part shows like a token of a pattern string, any other part as it is. */
  ghost predicate PartShows(x: Context, part: PatternPart, text: string) {
    if part.kind == TOKEN then Shows(x, Tok(part.value), text) else text == part.value
  }

  ghost predicate PartsShow(x: Context, parts: seq<PatternPart>, texts: seq<string>) {
    |texts| == |parts| && forall i :: 0 <= i < |parts| ==> PartShows(x, parts[i], texts[i])
  }

  ghost predicate SomePartFails(x: Context, parts: seq<PatternPart>, e: ResolveError) {
    exists texts :: PartFails(x, parts, texts, e)
  }

  ghost predicate PartFails(x: Context, parts: seq<PatternPart>, texts: seq<string>, e: ResolveError) {
    && |texts| < |parts|
    && PartsShow(x, parts[..|texts|], texts)
    && parts[|texts|].kind == TOKEN && Fails(x, Tok(parts[|texts|].value), e)
  }

  lemma PartsPrepend(x: Context, part: PatternPart, text: string, parts: seq<PatternPart>, texts: seq<string>)
    requires PartShows(x, part, text) && PartsShow(x, parts, texts)
    ensures PartsShow(x, [part] + parts, [text] + texts) && Concat([text] + texts) == text + Concat(texts)
  {
    hide PartShows;
    var ps, ts := [part] + parts, [text] + texts;
    assert ts[1..] == texts;
    forall i | 0 <= i < |ts| ensures PartShows(x, ps[i], ts[i]) {
      if i > 0 {
        assert ps[i] == parts[i - 1] && ts[i] == texts[i - 1];
      }
    }
  }

  lemma PartFailurePrepend(x: Context, part: PatternPart, text: string, parts: seq<PatternPart>, e: ResolveError)
    requires PartShows(x, part, text) && SomePartFails(x, parts, e)
    ensures SomePartFails(x, [part] + parts, e)
  {
    hide PartShows, Fails;
    var texts :| PartFails(x, parts, texts, e);
    PartsPrepend(x, part, text, parts[..|texts|], texts);
    var ps := [part] + parts;
    assert ps[..|texts| + 1] == [part] + parts[..|texts|];
    assert PartFails(x, ps, [text] + texts, e);
  }

  lemma PartFailureFirst(x: Context, part: PatternPart, parts: seq<PatternPart>, e: ResolveError)
    requires part.kind == TOKEN && Fails(x, Tok(part.value), e)
    ensures SomePartFails(x, [part] + parts, e)
  {
    hide PartShows, Fails;
    var ps := [part] + parts;
    assert ps[..0] == [];
    assert PartFails(x, ps, [], e);
  }

  /** Every part is a registered token or one of the four separators. */
  ghost predicate ValidParts(registry: Registry, parts: seq<PatternPart>) {
    forall p :: p in parts ==>
      || (p.kind == TOKEN && p.value in registry)
      || (p.kind == SEPARATOR && p.value in {"/", "-", "_", " "})
  }

  ghost predicate PartsSpelled(x: Context, parts: seq<PatternPart>, r: Result<string, ResolveError>) {
    if r.Ok? then exists texts :: PartsShow(x, parts, texts) && r.value == Concat(texts)
    else SomePartFails(x, parts, r.error)
  }

  lemma {:induction false} PartsSpell(x: Context, parts: seq<PatternPart>)
    requires ValidParts(x.registry, parts)
    ensures PartsSpelled(x, parts, PartsWalk(x, parts).result)
  {
    hide TokenWalk, SomePartFails, Shows, Fails, PartsShow;
    if parts == [] {
      NoParts(x);
      assert PartsShow(x, [], []) && Concat([]) == "";
    } else {
      var part, rest := parts[0], parts[1..];
      assert parts == [part] + rest && part in parts && forall p :: p in rest ==> p in parts;
      PartsSpell(x, rest);
      if part.kind == TOKEN {
        TokenSpells(x, part.value);
        match TokenWalk(x, part.value).result
        case Err(e) => PartFailureFirst(x, part, rest, e);
        case Ok(text) => PartSpellsFirst(x, part, text, rest, PartsWalk(x, rest).result);
      } else {
        PartSpellsFirst(x, part, part.value, rest, PartsWalk(x, rest).result);
      }
    }
  }

  lemma NoParts(x: Context)
    ensures PartsShow(x, [], [])
  {}

  lemma PartSpellsFirst(x: Context, part: PatternPart, text: string, rest: seq<PatternPart>,
                        r: Result<string, ResolveError>)
    requires PartShows(x, part, text)
    requires PartsSpelled(x, rest, r)
    ensures PartsSpelled(x, [part] + rest, Following(Ok(text), r))
  {
    hide PartShows, PartsShow, SomePartFails, Concat;
    if r.Ok? {
      var texts :| PartsShow(x, rest, texts) && r.value == Concat(texts);
      PartsPrepend(x, part, text, rest, texts);
      assert PartsShow(x, [part] + rest, [text] + texts);
    } else {
      PartFailurePrepend(x, part, text, rest, r.error);
    }
  }

  /** A part that is no registered token and none of the four separators. */
  ghost predicate BadPart(registry: Registry, part: PatternPart, e: ResolveError) {
    if part.kind == TOKEN then part.value !in registry && e == UnknownToken(part.value)
    else !(part.kind == SEPARATOR && part.value in {"/", "-", "_", " "}) && e == Empty
  }

  ghost predicate FirstBadPart(registry: Registry, parts: seq<PatternPart>, e: ResolveError) {
    exists i :: 0 <= i < |parts| && BadAt(registry, parts, e, i)
  }

  ghost predicate BadAt(registry: Registry, parts: seq<PatternPart>, e: ResolveError, i: int)
    requires 0 <= i < |parts|
  {
    BadPart(registry, parts[i], e) && ValidParts(registry, parts[..i])
  }

  lemma PartFaultMeans(registry: Registry, part: PatternPart, e: ResolveError)
    ensures PartFault(registry, part) == Some(e) <==> BadPart(registry, part, e)
    ensures PartFault(registry, part).None? <==> ValidParts(registry, [part])
  {
    assert part in [part];
  }

  lemma ValidPrepend(registry: Registry, part: PatternPart, parts: seq<PatternPart>)
    ensures ValidParts(registry, [part] + parts) <==> ValidParts(registry, [part]) && ValidParts(registry, parts)
  {
    assert forall p :: p in [part] + parts <==> p == part || p in parts;
    assert part in [part];
  }

  lemma BadPrepend(registry: Registry, part: PatternPart, parts: seq<PatternPart>, e: ResolveError)
    ensures ValidParts(registry, [part]) && FirstBadPart(registry, parts, e) ==>
              FirstBadPart(registry, [part] + parts, e)
    ensures BadPart(registry, part, e) ==> FirstBadPart(registry, [part] + parts, e)
  {
    hide ValidParts, BadPart;
    var ps := [part] + parts;
    if ValidParts(registry, [part]) && FirstBadPart(registry, parts, e) {
      var i :| 0 <= i < |parts| && BadAt(registry, parts, e, i);
      assert ps[..i + 1] == [part] + parts[..i];
      ValidPrepend(registry, part, parts[..i]);
      assert BadAt(registry, ps, e, i + 1);
    }
    if BadPart(registry, part, e) {
      NoPartIsValid(registry);
      assert ps[..0] == [];
      assert BadAt(registry, ps, e, 0);
    }
  }

  lemma NoPartIsValid(registry: Registry)
    ensures ValidParts(registry, [])
  {}

  /** A part list is refused before any token is looked up if and only if some part is no registered token
      and none of the four separators; the error is that of the first such part. */
  lemma {:induction false} PartsFaultMeans(registry: Registry, parts: seq<PatternPart>)
    ensures PartsFault(registry, parts).None? <==> ValidParts(registry, parts)
    ensures PartsFault(registry, parts).Some? ==> FirstBadPart(registry, parts, PartsFault(registry, parts).value)
  {
    hide ValidParts, BadPart, PartFault, FirstBadPart;
    if parts == [] {
      NoPartIsValid(registry);
    } else {
      var part, rest := parts[0], parts[1..];
      assert parts == [part] + rest;
      PartsFaultMeans(registry, rest);
      ValidPrepend(registry, part, rest);
      if PartsFault(registry, parts).Some? {
        PartFaultMeans(registry, part, PartsFault(registry, parts).value);
        BadPrepend(registry, part, rest, PartsFault(registry, parts).value);
      } else {
        PartFaultMeans(registry, part, Empty);
      }
    }
  }

  ghost predicate SpelledListFails(x: Context, config: Config, parts: seq<PatternPart>, e: ResolveError) {
    exists texts :: PartsShow(x, parts, texts) && CheckFails(x, config, Concat(texts), e)
  }

  /** A path resolved from a part list is what its parts show, one after the other. An error comes from an
      empty list, from a part that is not allowed, from the first token that fails, or from the check of the
      path so spelled. */
  lemma PartsPathIsSpelled(x: Context, config: Config, parts: seq<PatternPart>)
    ensures PartsOutcome(x, config, parts).Ok? ==>
              exists texts :: PartsShow(x, parts, texts)
                && PartsOutcome(x, config, parts).value.relativePath == Concat(texts)
    ensures PartsOutcome(x, config, parts).Err? ==>
              || (parts == [] && PartsOutcome(x, config, parts).error == Empty)
              || PartsFault(x.registry, parts) == Some(PartsOutcome(x, config, parts).error)
              || SomePartFails(x, parts, PartsOutcome(x, config, parts).error)
              || SpelledListFails(x, config, parts, PartsOutcome(x, config, parts).error)
  {
    hide PartsWalk, PartsShow, SomePartFails, AssembledFault, PartsFault, PartsWarnings, Concat;
    PartsFaultMeans(x.registry, parts);
    if ValidParts(x.registry, parts) {
      PartsSpell(x, parts);
    }
  }

  /** The warnings of a resolved part list, each for its own reason. */
  lemma WarningsMean(x: Context, config: Config, parts: seq<PatternPart>)
    requires PartsOutcome(x, config, parts).Ok?
    ensures var w := PartsOutcome(x, config, parts).value.warnings;
            && (LeadingSeparator in w <==> parts[0].kind == SEPARATOR)
            && (TrailingSeparator in w <==> parts[|parts| - 1].kind == SEPARATOR)
            && (ConsecutiveSeparators in w <==>
                  exists i :: 0 <= i < |parts| - 1 && parts[i].kind == SEPARATOR && parts[i + 1].kind == SEPARATOR)
            && (NoPathSeparator in w <==>
                  forall i :: 0 <= i < |parts| ==> parts[i].kind != SEPARATOR || parts[i].value != "/")
  {
    hide PartsWalk, AssembledFault, PartsFault;
  }

  // ----- What absent values show in the shipped registry --------------------

  /** Lower-casing leaves ASCII text without capitals alone. */
  ghost predicate LowerLaw(u: Unicode) {
    forall s :: IsAscii(s) && (forall i :: 0 <= i < |s| ==> !('A' <= s[i] <= 'Z')) ==> u.lower(s) == s
  }

  /** Small letters, digits and dashes, too long or too numeric for a device name. */
  predicate PlainWord(s: string) {
    && s != ""
    && (forall i :: 0 <= i < |s| ==> 'a' <= s[i] <= 'z' || '0' <= s[i] <= '9' || s[i] == '-')
    && (|s| > 4 || '0' <= s[0] <= '9')
  }

  lemma DeviceNamesAreShort(s: string)
    requires s in DEVICE_NAMES
    ensures s != "" && |s| <= 4 && !('0' <= s[0] <= '9')
  {}

  lemma PlainWordPasses(u: Unicode, token: string, s: string)
    requires AsciiLaws(u) && PlainWord(s)
    ensures Sanitize(u, token, s) == Ok(s)
  {
    assert IsAscii(s) && IsTrimmed(s);
    assert BeforeDot(s, |s|) by {
      assert s[..|s|] == s;
    }
    StemIsBeforeDot(s, |s|);
    assert s[..|s|] == s;
    if NamesDevice(u, s) {
      DeviceNamesAreShort(AsciiUpper(s));
    }
    hide DEVICE_NAMES, NamesDevice, IsTrimmed;
    CleanAsciiPasses(u, token, s);
  }

  lemma FallbackWords()
    ensures PlainWord("unclassified") && PlainWord("nofilter") && PlainWord("undated") && PlainWord("unknown")
    ensures PlainWord("1x1")
  {}

  lemma MoreFallbackWords()
    ensures PlainWord("unknown-camera") && PlainWord("unknown-exposure") && PlainWord("unknown-gain")
    ensures PlainWord("untempered")
  {}

  lemma ShippedDefinition(name: string)
    requires name in V1_REGISTRY
    ensures var def := V1_REGISTRY[name]; PlainWord(def.fallback) && !def.transform.Upper?
  {
    hide PlainWord;
    FallbackWords();
    MoreFallbackWords();
    assert name in {"target", "filter", "date", "frame_type", "camera", "exposure", "gain", "binning", "set_temp"};
  }

  /** With the shipped registry a token whose value is absent or empty shows as its fallback, as it stands. */
  lemma AbsentShowsFallback(x: Context, name: string, text: string)
    requires AsciiLaws(x.unicode) && LowerLaw(x.unicode) && x.registry == V1_REGISTRY && name in x.registry
    requires !Present(x, x.registry[name])
    ensures Shows(x, Tok(name), text) <==> text == x.registry[name].fallback
  {
    hide V1_REGISTRY, Sanitize, PlainWord, AsciiLaws, LowerLaw;
    ShippedDefinition(name);
    var def := x.registry[name];
    LowerPlainWord(x.unicode, def.fallback);
    PlainWordPasses(x.unicode, name, def.fallback);
  }

  lemma LowerPlainWord(u: Unicode, s: string)
    requires LowerLaw(u) && PlainWord(s)
    ensures u.lower(s) == s
  {
    assert IsAscii(s);
  }
}
