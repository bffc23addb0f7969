/** Destination patterns: the token registry, the two resolvers, and the token scanner. */
module Patterns {
  import opened Options
  import opened SafeFilename
  import opened Texts

  // ----- Registry -----------------------------------------------------------

  datatype TokenTransform = SanitizeOnly | DateIso | Lower | Upper

  datatype TokenDefinition = TokenDefinition(sourceField: string, fallback: string, transform: TokenTransform)

  type Registry = map<string, TokenDefinition>

  type Bundle = map<string, string>

  datatype Config = Config(maxSegmentBytes: nat, maxPathChars: nat)

  const DEFAULT_CONFIG := Config(200, 200)

  const V1_REGISTRY: Registry := map[
    "target" := TokenDefinition("target", "unclassified", SanitizeOnly),
    "filter" := TokenDefinition("filter", "nofilter", SanitizeOnly),
    "date" := TokenDefinition("date", "undated", DateIso),
    "frame_type" := TokenDefinition("frame_type", "unknown", Lower),
    "camera" := TokenDefinition("camera", "unknown-camera", SanitizeOnly),
    "exposure" := TokenDefinition("exposure", "unknown-exposure", SanitizeOnly),
    "gain" := TokenDefinition("gain", "unknown-gain", SanitizeOnly),
    "binning" := TokenDefinition("binning", "1x1", SanitizeOnly),
    "set_temp" := TokenDefinition("set_temp", "untempered", SanitizeOnly)]

  // ----- Errors and results -------------------------------------------------

  datatype ResolveError =
    | Empty
    | UnknownToken(token: string)
    | PathTraversal(segment: string)
    | ReservedName(segment: string)
    | UnicodeConfusable(token: string, value: string)
    | PathTooLong(resolvedLength: nat, segmentLengthBytes: nat)
    | EmptySegment(value: string)

  datatype ValidationWarning = ConsecutiveSeparators | LeadingSeparator | TrailingSeparator | NoPathSeparator

  datatype ResolveResult = ResolveResult(
    relativePath: string, missingTokens: seq<string>, warnings: seq<ValidationWarning>)

  function MapSanitizeError(e: SanitizeError): ResolveError {
    match e
    case PathTraversal(s) => ResolveError.PathTraversal(s)
    case ReservedName(s) => ResolveError.ReservedName(s)
    case UnicodeConfusable(t, v) => ResolveError.UnicodeConfusable(t, v)
    case EmptyAfterSanitize(_, v) => EmptySegment(v)
  }

  /** The tables and the data a resolution reads. */
  datatype Context = Context(unicode: Unicode, registry: Registry, bundle: Bundle)

  // ----- One token, one literal ---------------------------------------------

  function ApplyTransform(u: Unicode, value: string, transform: TokenTransform): string {
    match transform
    case SanitizeOnly => value
    case DateIso => value
    case Lower => u.lower(value)
    case Upper => u.upper(value)
  }

  /** A partial resolution: the text or the error, the tokens reported missing and the tokens looked up. */
  datatype Walk = Walk(result: Result<string, ResolveError>, missing: seq<string>, looked: seq<string>)

  /** The outcome of `resolve_one_token`. */
  function TokenWalk(x: Context, name: string): Walk {
    if name !in x.registry then Walk(Err(UnknownToken(name)), [], [name])
    else
      var def := x.registry[name];
      var present := def.sourceField in x.bundle && x.bundle[def.sourceField] != "";
      var raw := if present then x.bundle[def.sourceField] else def.fallback;
      match Sanitize(x.unicode, name, ApplyTransform(x.unicode, raw, def.transform))
      case Ok(s) => Walk(Ok(s), if present then [] else [name], [name])
      case Err(EmptyAfterSanitize(_, _)) => Walk(Ok(def.fallback), [name], [name])
      case Err(e) => Walk(Err(MapSanitizeError(e)), if present then [] else [name], [name])
  }

  /** `resolve_one_token`, with the vector it appends to as in- and out-parameter. */
  method ResolveOneToken(x: Context, name: string, missing0: seq<string>)
    returns (r: Result<string, ResolveError>, missing: seq<string>)
    ensures r == TokenWalk(x, name).result
    ensures missing == missing0 + TokenWalk(x, name).missing
  {
    missing := missing0;
    if name !in x.registry {
      return Err(UnknownToken(name)), missing;
    }
    var def := x.registry[name];
    var isFallback := !(def.sourceField in x.bundle && x.bundle[def.sourceField] != "");
    var raw := if isFallback then def.fallback else x.bundle[def.sourceField];
    if isFallback {
      missing := missing + [name];
    }
    match Sanitize(x.unicode, name, ApplyTransform(x.unicode, raw, def.transform)) {
      case Ok(s) =>
        r := Ok(s);
      case Err(e) =>
        if e.EmptyAfterSanitize? {
          if !isFallback {
            missing := missing + [name];
          }
          r := Ok(def.fallback);
        } else {
          r := Err(MapSanitizeError(e));
        }
    }
  }

  /** `sanitize_literal`. */
  function Literal(x: Context, text: string): Result<string, ResolveError> {
    match Sanitize(x.unicode, "literal", text)
    case Ok(s) => Ok(s)
    case Err(e) => Err(MapSanitizeError(e))
  }

  // ----- One segment of a pattern string ------------------------------------

  /** `w` after text, reports and lookups that came before it. */
  function After(text: string, missing: seq<string>, looked: seq<string>, w: Walk): Walk {
    Walk(match w.result case Ok(t) => Ok(text + t) case Err(e) => Err(e), missing + w.missing, looked + w.looked)
  }

  function Failed(e: ResolveError): Walk {
    Walk(Err(e), [], [])
  }

  function LiteralWalk(x: Context, text: string): Walk {
    Walk(Literal(x, text), [], [])
  }

  /** The outcome of `resolve_segment` on what is left of a segment. */
  function SegmentWalk(x: Context, rest: string): Walk
    decreases |rest|, 1
  {
    if rest == "" then Walk(Ok(""), [], [])
    else match Find(rest, '{')
      case None => LiteralWalk(x, rest)
      case Some(open) =>
        var before := if open > 0 then Literal(x, rest[..open]) else Ok("");
        if before.Err? then Failed(before.error)
        else After(before.value, [], [], BraceWalk(x, rest[open..]))
  }

  /** A segment from an opening brace on. */
  function BraceWalk(x: Context, rest: string): Walk
    requires rest != ""
    decreases |rest|, 0
  {
    match Find(rest[1..], '}')
    case None => LiteralWalk(x, rest)
    case Some(close) =>
      var token := TokenWalk(x, rest[1..][..close]);
      if token.result.Err? then token
      else After(token.result.value, token.missing, token.looked, SegmentWalk(x, rest[1..][close + 1..]))
  }

  lemma AfterTwice(t1: string, m1: seq<string>, l1: seq<string>, t2: string, m2: seq<string>, l2: seq<string>, w: Walk)
    ensures After(t1, m1, l1, After(t2, m2, l2, w)) == After(t1 + t2, m1 + m2, l1 + l2, w)
  {
    if w.result.Ok? {
      assert t1 + (t2 + w.result.value) == (t1 + t2) + w.result.value;
    }
    assert m1 + (m2 + w.missing) == (m1 + m2) + w.missing;
    assert l1 + (l2 + w.looked) == (l1 + l2) + w.looked;
  }

  lemma AfterNothing(w: Walk)
    ensures After("", [], [], w) == w
  {
    assert [] + w.missing == w.missing && [] + w.looked == w.looked;
    if w.result.Ok? {
      assert "" + w.result.value == w.result.value;
    }
  }

  lemma AfterEnd(x: Context, text: string, missing: seq<string>, looked: seq<string>)
    ensures After(text, missing, looked, SegmentWalk(x, "")) == Walk(Ok(text), missing, looked)
  {
    assert missing + [] == missing && looked + [] == looked && text + "" == text;
  }

  /** `w` is what one piece gave, followed by the walk over `rest`, or the piece failed with `w`. */
  ghost predicate Continues(x: Context, w: Walk, r: Result<string, ResolveError>, missing: seq<string>,
                            looked: seq<string>, rest: string) {
    match r
    case Ok(text) => w == After(text, missing, looked, SegmentWalk(x, rest))
    case Err(e) => w == Walk(Err(e), missing, looked)
  }

  /** The piece that starts at an opening brace: a token, or a literal when the brace is not closed. */
  method BracePiece(x: Context, rest: string, missing0: seq<string>)
    returns (r: Result<string, ResolveError>, missing: seq<string>, left: string,
             ghost added: seq<string>, ghost looked: seq<string>)
    requires rest != ""
    ensures Continues(x, BraceWalk(x, rest), r, added, looked, left)
    ensures missing == missing0 + added && |left| < |rest|
  {
    missing, added, looked := missing0, [], [];
    match Find(rest[1..], '}') {
      case None =>
        r, left := Literal(x, rest), "";
        if r.Ok? {
          AfterEnd(x, r.value, [], []);
        }
      case Some(close) =>
        var name := rest[1..][..close];
        r, missing := ResolveOneToken(x, name, missing);
        left := rest[1..][close + 1..];
        added, looked := TokenWalk(x, name).missing, [name];
    }
  }

  /** One round of the segment loop. */
  method NextPiece(x: Context, rest: string, missing0: seq<string>)
    returns (r: Result<string, ResolveError>, missing: seq<string>, left: string,
             ghost added: seq<string>, ghost looked: seq<string>)
    requires rest != ""
    ensures Continues(x, SegmentWalk(x, rest), r, added, looked, left)
    ensures missing == missing0 + added && |left| < |rest|
  {
    hide BraceWalk;
    missing, added, looked := missing0, [], [];
    match Find(rest, '{') {
      case None =>
        r, left := Literal(x, rest), "";
        if r.Ok? {
          AfterEnd(x, r.value, [], []);
        }
      case Some(open) =>
        var before := "";
        if open > 0 {
          var literal := Literal(x, rest[..open]);
          if literal.Err? {
            return Err(literal.error), missing, "", added, looked;
          }
          before := literal.value;
        }
        r, missing, left, added, looked := BracePiece(x, rest[open..], missing);
        if r.Ok? {
          AfterTwice(before, [], [], r.value, added, looked, SegmentWalk(x, left));
          r := Ok(before + r.value);
        }
        assert [] + added == added && [] + looked == looked;
    }
  }

  /** Appending one more piece to what was walked so far. */
  lemma AppendPiece(x: Context, w: Walk, out: string, added: seq<string>, looked: seq<string>, from: string,
                    r: Result<string, ResolveError>, add: seq<string>, look: seq<string>, rest: string)
    requires w == After(out, added, looked, SegmentWalk(x, from))
    requires Continues(x, SegmentWalk(x, from), r, add, look, rest)
    ensures match r
            case Ok(text) => w == After(out + text, added + add, looked + look, SegmentWalk(x, rest))
            case Err(e) => w == Walk(Err(e), added + add, looked + look)
  {
    hide SegmentWalk;
    if r.Ok? {
      AfterTwice(out, added, looked, r.value, add, look, SegmentWalk(x, rest));
    }
  }

  /** `resolve_segment`. */
  method ResolveSegment(x: Context, segment: string, missing0: seq<string>)
    returns (r: Result<string, ResolveError>, missing: seq<string>, ghost looked: seq<string>)
    ensures r == SegmentWalk(x, segment).result && looked == SegmentWalk(x, segment).looked
    ensures missing == missing0 + SegmentWalk(x, segment).missing
  {
    hide SegmentWalk, After, Continues;
    var out, rest := "", segment;
    missing, looked := missing0, [];
    ghost var w, added: seq<string> := SegmentWalk(x, segment), [];
    AfterNothing(w);
    while rest != ""
      invariant w == After(out, added, looked, SegmentWalk(x, rest))
      invariant missing == missing0 + added
      decreases |rest|
    {
      ghost var add, look;
      ghost var from := rest;
      r, missing, rest, add, look := NextPiece(x, rest, missing);
      AppendPiece(x, w, out, added, looked, from, r, add, look, rest);
      added, looked := added + add, looked + look;
      if r.Err? {
        return;
      }
      out := out + r.value;
    }
    AfterEnd(x, out, added, looked);
    r := Ok(out);
  }

  // ----- The assembled path -------------------------------------------------

  function SegmentFault(u: Unicode, config: Config, total: nat, segment: string): Option<ResolveError> {
    if IsTraversal(segment) then Some(ResolveError.PathTraversal(segment))
    else if segment == "" then None
    else if NamesDevice(u, segment) then Some(ResolveError.ReservedName(segment))
    else if Utf8Length(segment) > config.maxSegmentBytes then Some(PathTooLong(total, Utf8Length(segment)))
    else None
  }

  /** The fault of the first faulty segment. */
  function SegmentsFault(u: Unicode, config: Config, total: nat, segments: seq<string>): Option<ResolveError> {
    if segments == [] then None
    else
      var fault := SegmentFault(u, config, total, segments[0]);
      if fault.Some? then fault else SegmentsFault(u, config, total, segments[1..])
  }

  function AssembledFault(u: Unicode, config: Config, path: string): Option<ResolveError> {
    var fault := SegmentsFault(u, config, |path|, Split(path, '/'));
    if fault.Some? then fault
    else if |path| > config.maxPathChars then Some(PathTooLong(|path|, 0))
    else None
  }

  /** `check_assembled_path`. */
  method CheckAssembledPath(u: Unicode, config: Config, path: string) returns (fault: Option<ResolveError>)
    ensures fault == AssembledFault(u, config, path)
  {
    var segments := Split(path, '/');
    for i := 0 to |segments|
      invariant SegmentsFault(u, config, |path|, segments) == SegmentsFault(u, config, |path|, segments[i..])
    {
      var segment := segments[i];
      assert segments[i..][0] == segment && segments[i..][1..] == segments[i + 1..];
      if IsTraversal(segment) {
        return Some(ResolveError.PathTraversal(segment));
      }
      if segment == "" {
        continue;
      }
      if NamesDevice(u, segment) {
        return Some(ResolveError.ReservedName(segment));
      }
      if Utf8Length(segment) > config.maxSegmentBytes {
        return Some(PathTooLong(|path|, Utf8Length(segment)));
      }
    }
    if |path| > config.maxPathChars {
      return Some(PathTooLong(|path|, 0));
    }
    return None;
  }

  // ----- The pattern-string resolver ----------------------------------------

  predicate IsBlank(s: string) {
    forall i :: 0 <= i < |s| ==> IsWhitespace(s[i])
  }

  /** A walk over several segments: the rendered levels or the first error. */
  datatype Levels = Levels(result: Result<seq<string>, ResolveError>, missing: seq<string>, looked: seq<string>)

  function AfterLevels(levels: seq<string>, missing: seq<string>, looked: seq<string>, w: Levels): Levels {
    Levels(match w.result case Ok(l) => Ok(levels + l) case Err(e) => Err(e), missing + w.missing, looked + w.looked)
  }

  /** The loop of `resolve_pattern_str_with`: empty segments are skipped. */
  function SegmentsWalk(x: Context, segments: seq<string>): Levels {
    if segments == [] then Levels(Ok([]), [], [])
    else if segments[0] == "" then SegmentsWalk(x, segments[1..])
    else
      var w := SegmentWalk(x, segments[0]);
      match w.result
      case Err(e) => Levels(Err(e), w.missing, w.looked)
      case Ok(level) => AfterLevels([level], w.missing, w.looked, SegmentsWalk(x, segments[1..]))
  }

  function PatternWalk(x: Context, pattern: string): Levels {
    SegmentsWalk(x, Split(pattern, '/'))
  }

  function Assembled(x: Context, config: Config, path: string, missing: seq<string>, warnings: seq<ValidationWarning>):
    Result<ResolveResult, ResolveError>
  {
    match AssembledFault(x.unicode, config, path)
    case Some(e) => Err(e)
    case None => Ok(ResolveResult(path, missing, warnings))
  }

  /** The outcome of `resolve_pattern_str_with`. */
  function PatternOutcome(x: Context, config: Config, pattern: string): Result<ResolveResult, ResolveError> {
    if IsBlank(pattern) then Err(Empty)
    else
      var w := PatternWalk(x, pattern);
      match w.result
      case Err(e) => Err(e)
      case Ok(levels) => Assembled(x, config, Join(levels, '/'), w.missing, [])
  }

  lemma AfterLevelsTwice(a: seq<string>, m1: seq<string>, l1: seq<string>, b: seq<string>, m2: seq<string>,
                         l2: seq<string>, w: Levels)
    ensures AfterLevels(a, m1, l1, AfterLevels(b, m2, l2, w)) == AfterLevels(a + b, m1 + m2, l1 + l2, w)
  {
    if w.result.Ok? {
      assert a + (b + w.result.value) == (a + b) + w.result.value;
    }
    assert m1 + (m2 + w.missing) == (m1 + m2) + w.missing;
    assert l1 + (l2 + w.looked) == (l1 + l2) + w.looked;
  }

  lemma SegmentsWalkStep(x: Context, segments: seq<string>, i: nat, levels: seq<string>, missing: seq<string>,
                         looked: seq<string>)
    requires i < |segments|
    ensures var w := SegmentWalk(x, segments[i]);
            var here := AfterLevels(levels, missing, looked, SegmentsWalk(x, segments[i..]));
            here == (if segments[i] == "" then AfterLevels(levels, missing, looked, SegmentsWalk(x, segments[i + 1..]))
                     else match w.result
                       case Err(e) => Levels(Err(e), missing + w.missing, looked + w.looked)
                       case Ok(level) => AfterLevels(levels + [level], missing + w.missing, looked + w.looked,
                                                     SegmentsWalk(x, segments[i + 1..])))
  {
    hide SegmentWalk;
    var w := SegmentWalk(x, segments[i]);
    assert segments[i..][0] == segments[i] && segments[i..][1..] == segments[i + 1..];
    if segments[i] != "" && w.result.Ok? {
      AfterLevelsTwice(levels, missing, looked, [w.result.value], w.missing, w.looked,
                       SegmentsWalk(x, segments[i + 1..]));
    }
  }

  /** `resolve_pattern_str_with`. The ghost result is the sequence of token names looked up. */
  method ResolvePatternStr(x: Context, config: Config, pattern: string)
    returns (r: Result<ResolveResult, ResolveError>, ghost looked: seq<string>)
    ensures r == PatternOutcome(x, config, pattern)
    ensures looked == if IsBlank(pattern) then [] else PatternWalk(x, pattern).looked
  {
    hide SegmentWalk, SegmentsWalk, AfterLevels;
    looked := [];
    if IsBlank(pattern) {
      return Err(Empty), looked;
    }
    var missing: seq<string>, levels: seq<string> := [], [];
    var segments := Split(pattern, '/');
    SegmentsWalkStarts(x, segments);
    for i := 0 to |segments|
      invariant SegmentsWalk(x, segments) == AfterLevels(levels, missing, looked, SegmentsWalk(x, segments[i..]))
    {
      SegmentsWalkStep(x, segments, i, levels, missing, looked);
      if segments[i] == "" {
        continue;
      }
      var level;
      ghost var look;
      level, missing, look := ResolveSegment(x, segments[i], missing);
      looked := looked + look;
      if level.Err? {
        return Err(level.error), looked;
      }
      levels := levels + [level.value];
    }
    SegmentsWalkEnds(x, segments, levels, missing, looked);
    var path := Join(levels, '/');
    var fault := CheckAssembledPath(x.unicode, config, path);
    if fault.Some? {
      return Err(fault.value), looked;
    }
    return Ok(ResolveResult(path, missing, [])), looked;
  }

  lemma SegmentsWalkStarts(x: Context, segments: seq<string>)
    ensures SegmentsWalk(x, segments) == AfterLevels([], [], [], SegmentsWalk(x, segments[0..]))
  {
    assert segments[0..] == segments;
    var w := SegmentsWalk(x, segments);
    assert [] + w.missing == w.missing && [] + w.looked == w.looked;
    if w.result.Ok? {
      assert [] + w.result.value == w.result.value;
    }
  }

  lemma SegmentsWalkEnds(x: Context, segments: seq<string>, levels: seq<string>, missing: seq<string>,
                         looked: seq<string>)
    ensures AfterLevels(levels, missing, looked, SegmentsWalk(x, segments[|segments|..]))
            == Levels(Ok(levels), missing, looked)
  {
    assert segments[|segments|..] == [];
    assert levels + [] == levels && missing + [] == missing && looked + [] == looked;
  }

  // ----- The part-list resolver ---------------------------------------------

  datatype PatternPart = PatternPart(kind: string, value: string)

  const TOKEN := "token"
  const SEPARATOR := "separator"

  predicate IsValidSeparator(s: string) {
    s == "/" || s == "-" || s == "_" || s == " "
  }

  function PartFault(registry: Registry, part: PatternPart): Option<ResolveError> {
    if part.kind == TOKEN then (if part.value in registry then None else Some(UnknownToken(part.value)))
    else if part.kind == SEPARATOR && IsValidSeparator(part.value) then None
    else Some(Empty)
  }

  /** The first hard error of `validate`, as `resolve` reports it. */
  function PartsFault(registry: Registry, parts: seq<PatternPart>): Option<ResolveError> {
    if parts == [] then None
    else
      var fault := PartFault(registry, parts[0]);
      if fault.Some? then fault else PartsFault(registry, parts[1..])
  }

  /** The warnings of `validate`, in the order they are raised. */
  function PartsWarnings(parts: seq<PatternPart>): seq<ValidationWarning>
    requires parts != []
  {
    (if parts[0].kind == SEPARATOR then [LeadingSeparator] else []) +
    (if parts[|parts| - 1].kind == SEPARATOR then [TrailingSeparator] else []) +
    (if exists i :: 0 <= i < |parts| - 1 && parts[i].kind == SEPARATOR && parts[i + 1].kind == SEPARATOR
     then [ConsecutiveSeparators] else []) +
    (if exists i :: 0 <= i < |parts| && parts[i].kind == SEPARATOR && parts[i].value == "/"
     then [] else [NoPathSeparator])
  }

  /** The loop of `resolve`. */
  function PartsWalk(x: Context, parts: seq<PatternPart>): Walk {
    if parts == [] then Walk(Ok(""), [], [])
    else if parts[0].kind == TOKEN then
      var token := TokenWalk(x, parts[0].value);
      if token.result.Err? then token
      else After(token.result.value, token.missing, token.looked, PartsWalk(x, parts[1..]))
    else if parts[0].kind == SEPARATOR then After(parts[0].value, [], [], PartsWalk(x, parts[1..]))
    else PartsWalk(x, parts[1..])
  }

  /** The outcome of `resolve`. */
  function PartsOutcome(x: Context, config: Config, parts: seq<PatternPart>): Result<ResolveResult, ResolveError> {
    if parts == [] then Err(Empty)
    else if PartsFault(x.registry, parts).Some? then Err(PartsFault(x.registry, parts).value)
    else
      var w := PartsWalk(x, parts);
      match w.result
      case Err(e) => Err(e)
      case Ok(path) => Assembled(x, config, path, w.missing, PartsWarnings(parts))
  }

  lemma PartsWalkStep(x: Context, parts: seq<PatternPart>, i: nat, text: string, missing: seq<string>,
                      looked: seq<string>)
    requires i < |parts|
    ensures var here := After(text, missing, looked, PartsWalk(x, parts[i..]));
            var rest := PartsWalk(x, parts[i + 1..]);
            if parts[i].kind == TOKEN then
              var token := TokenWalk(x, parts[i].value);
              match token.result
              case Err(e) => here == Walk(Err(e), missing + token.missing, looked + token.looked)
              case Ok(s) => here == After(text + s, missing + token.missing, looked + token.looked, rest)
            else if parts[i].kind == SEPARATOR then here == After(text + parts[i].value, missing, looked, rest)
            else here == After(text, missing, looked, rest)
  {
    hide TokenWalk;
    assert parts[i..][0] == parts[i] && parts[i..][1..] == parts[i + 1..];
    var rest := PartsWalk(x, parts[i + 1..]);
    if parts[i].kind == TOKEN {
      var token := TokenWalk(x, parts[i].value);
      if token.result.Ok? {
        AfterTwice(text, missing, looked, token.result.value, token.missing, token.looked, rest);
      }
    } else if parts[i].kind == SEPARATOR {
      AfterTwice(text, missing, looked, parts[i].value, [], [], rest);
      assert missing + [] == missing && looked + [] == looked;
    }
  }

  /** `resolve`. */
  method Resolve(x: Context, config: Config, parts: seq<PatternPart>) returns (r: Result<ResolveResult, ResolveError>)
    ensures r == PartsOutcome(x, config, parts)
  {
    hide PartsWalk, After, TokenWalk, AssembledFault;
    if parts == [] {
      return Err(Empty);
    }
    var fault := PartsFault(x.registry, parts);
    if fault.Some? {
      return Err(fault.value);
    }
    var missing: seq<string>, path := [], "";
    ghost var looked: seq<string> := [];
    assert parts[0..] == parts;
    AfterNothing(PartsWalk(x, parts));
    for i := 0 to |parts|
      invariant PartsWalk(x, parts) == After(path, missing, looked, PartsWalk(x, parts[i..]))
    {
      PartsWalkStep(x, parts, i, path, missing, looked);
      if parts[i].kind == TOKEN {
        var value;
        value, missing := ResolveOneToken(x, parts[i].value, missing);
        looked := looked + TokenWalk(x, parts[i].value).looked;
        if value.Err? {
          return Err(value.error);
        }
        path := path + value.value;
      } else if parts[i].kind == SEPARATOR {
        path := path + parts[i].value;
      }
    }
    PartsWalkEnds(x, parts, path, missing, looked);
    fault := CheckAssembledPath(x.unicode, config, path);
    if fault.Some? {
      return Err(fault.value);
    }
    return Ok(ResolveResult(path, missing, PartsWarnings(parts)));
  }

  lemma PartsWalkEnds(x: Context, parts: seq<PatternPart>, text: string, missing: seq<string>, looked: seq<string>)
    ensures After(text, missing, looked, PartsWalk(x, parts[|parts|..])) == Walk(Ok(text), missing, looked)
  {
    assert parts[|parts|..] == [];
    assert text + "" == text && missing + [] == missing && looked + [] == looked;
  }

  // ----- The token scanner of the per-type validator ------------------------

  /** `tokens_in`: the names between an opening brace and the next closing one. */
  function TokensIn(rest: string): seq<string>
    decreases |rest|, 0
  {
    match Find(rest, '{')
    case None => []
    case Some(open) => TokensAfterBrace(rest[open + 1..])
  }

  function TokensAfterBrace(after: string): seq<string>
    decreases |after|, 1
  {
    match Find(after, '}')
    case None => []
    case Some(close) => [after[..close]] + TokensIn(after[close + 1..])
  }

  method ScanTokens(pattern: string) returns (tokens: seq<string>)
    ensures tokens == TokensIn(pattern)
  {
    hide TokensIn, TokensAfterBrace;
    tokens := [];
    var rest := pattern;
    var open := Find(rest, '{');
    while open.Some?
      invariant open == Find(rest, '{')
      invariant TokensIn(pattern) == tokens + TokensIn(rest)
      decreases |rest|
    {
      var after := rest[open.value + 1..];
      var close := Find(after, '}');
      ScanOnce(rest);
      if close.None? {
        break;
      }
      var token := after[..close.value];
      Prepend(tokens, token, TokensIn(after[close.value + 1..]));
      tokens := tokens + [token];
      rest := after[close.value + 1..];
      open := Find(rest, '{');
    }
    ScanOnce(rest);
    assert tokens + [] == tokens;
  }

  /** What one round of the scan finds. */
  lemma ScanOnce(rest: string)
    ensures match Find(rest, '{')
            case None => TokensIn(rest) == []
            case Some(open) =>
              var after := rest[open + 1..];
              match Find(after, '}')
              case None => TokensIn(rest) == []
              case Some(close) => TokensIn(rest) == [after[..close]] + TokensIn(after[close + 1..])
  {
    hide Find;
  }

  lemma Prepend<T>(a: seq<T>, x: T, b: seq<T>)
    ensures a + ([x] + b) == (a + [x]) + b
  {}

  datatype PatternStrError = EmptyPattern | UnknownPatternToken(token: string)

  function UnknownIn(registry: Registry, tokens: seq<string>): Option<string> {
    if tokens == [] then None
    else if tokens[0] !in registry then Some(tokens[0])
    else UnknownIn(registry, tokens[1..])
  }

  /** The outcome of `validate_pattern_str`. */
  function PatternFault(registry: Registry, pattern: string): Option<PatternStrError> {
    if IsBlank(pattern) then Some(EmptyPattern)
    else match UnknownIn(registry, TokensIn(pattern))
      case None => None
      case Some(token) => Some(UnknownPatternToken(token))
  }

  method ValidatePatternStr(registry: Registry, pattern: string) returns (fault: Option<PatternStrError>)
    ensures fault == PatternFault(registry, pattern)
  {
    if IsBlank(pattern) {
      return Some(EmptyPattern);
    }
    var tokens := ScanTokens(pattern);
    for i := 0 to |tokens|
      invariant UnknownIn(registry, tokens) == UnknownIn(registry, tokens[i..])
    {
      assert tokens[i..][0] == tokens[i] && tokens[i..][1..] == tokens[i + 1..];
      if tokens[i] !in registry {
        return Some(UnknownPatternToken(tokens[i]));
      }
    }
    return None;
  }

  // ----- Per-type patterns --------------------------------------------------

  datatype FrameTypeClass = Light | Flat | Dark | Bias | MasterFlat | MasterDark | MasterBias

  function DefaultPattern(c: FrameTypeClass): string {
    match c
    case Light => "{target}/{filter}/{date}/light/"
    case Flat => "flats/{filter}/{date}/"
    case Dark => "darks/{exposure}/"
    case Bias => "bias/"
    case MasterFlat => "masters/flats/{filter}/"
    case MasterDark => "masters/darks/{exposure}/"
    case MasterBias => "masters/bias/"
  }

  function EffectivePattern(c: FrameTypeClass, override: Option<string>): string {
    match override
    case Some(p) => if PatternFault(V1_REGISTRY, p).None? then p else DefaultPattern(c)
    case None => DefaultPattern(c)
  }
}
