/** The part-list resolver and the pattern-string resolver answer alike, and the shipped registry and
    default patterns meet what the pattern laws ask for. */
module ResolverAgreement {
  import opened Options
  import opened SafeFilename
  import opened Texts
  import opened Patterns
  import opened PatternLaws

  // ----- Rendering parts as a pattern string --------------------------------

  /** A registered token, or one of the separators that survive sanitizing. */
  ghost predicate Ordinary(registry: Registry, part: PatternPart) {
    || (part.kind == TOKEN && part.value in registry)
    || (part.kind == SEPARATOR && (part.value == "/" || part.value == "-" || part.value == "_"))
  }

  ghost predicate AllOrdinary(registry: Registry, parts: seq<PatternPart>) {
    forall p :: p in parts ==> Ordinary(registry, p)
  }

  function RenderPart(part: PatternPart): string {
    if part.kind == TOKEN then "{" + (part.value + "}") else part.value
  }

  function Render(parts: seq<PatternPart>): string {
    if parts == [] then "" else RenderPart(parts[0]) + Render(parts[1..])
  }

  /** No leading, trailing or doubled slash. */
  ghost predicate NoEmptyLevel(parts: seq<PatternPart>) {
    && parts != []
    && !IsSlash(parts[0]) && !IsSlash(parts[|parts| - 1])
    && forall i :: 0 <= i < |parts| - 1 ==> !(IsSlash(parts[i]) && IsSlash(parts[i + 1]))
  }

  ghost predicate NoSlashPart(parts: seq<PatternPart>) {
    forall p :: p in parts ==> !IsSlash(p)
  }

  // ----- Separators survive the sanitizer -----------------------------------

  ghost predicate IsRun(run: string) {
    forall i :: 0 <= i < |run| ==> run[i] == '-' || run[i] == '_'
  }

  lemma {:induction false} StemOfRun(run: string)
    requires IsRun(run)
    ensures Stem(run) == run
  {
    if run != "" {
      StemOfRun(run[1..]);
      assert run == [run[0]] + run[1..];
    }
  }

  lemma DeviceNamesStartWithLetters(s: string)
    requires s in DEVICE_NAMES
    ensures s != "" && s[0] != '-' && s[0] != '_'
  {}

  lemma RunPasses(x: Context, run: string)
    requires AsciiLaws(x.unicode) && IsRun(run) && run != ""
    ensures Literal(x, run) == Ok(run)
  {
    StemOfRun(run);
    assert AsciiUpper(run) == run;
    assert IsAscii(run);
    assert !NamesDevice(x.unicode, run) by {
      assert x.unicode.upper(run) == run;
      if run in DEVICE_NAMES {
        DeviceNamesStartWithLetters(run);
      }
    }
    CleanAsciiPasses(x.unicode, "literal", run);
  }

  // ----- One level ----------------------------------------------------------

  lemma RunHasNoBrace(run: string)
    requires IsRun(run)
    ensures '{' !in run && '/' !in run
  {}

  /** A literal run in front of an opening brace. */
  lemma RunThenBrace(x: Context, run: string, rest: string)
    requires AsciiLaws(x.unicode) && IsRun(run) && rest != "" && rest[0] == '{'
    ensures SegmentWalk(x, run + rest) == After(run, [], [], BraceWalk(x, rest))
  {
    hide BraceWalk, Literal, Find;
    RunHasNoBrace(run);
    FindAt(rest, '{', 0);
    FindAfter(run, rest, '{');
    assert (run + rest)[..|run|] == run && (run + rest)[|run|..] == rest;
    if run != "" {
      RunPasses(x, run);
    }
  }

  /** A token lookup, then the rest. */
  ghost function TokenThen(x: Context, name: string, rest: Walk): Walk {
    var token := TokenWalk(x, name);
    if token.result.Err? then token else After(token.result.value, token.missing, token.looked, rest)
  }

  lemma BraceIsToken(x: Context, name: string, rest: string)
    requires '}' !in name
    ensures BraceWalk(x, "{" + (name + ("}" + rest))) == TokenThen(x, name, SegmentWalk(x, rest))
  {
    hide TokenWalk, SegmentWalk, Find;
    var t := name + ("}" + rest);
    assert ("{" + t)[1..] == t;
    FindAfter(name, "}" + rest, '}');
    FindAt("}" + rest, '}', 0);
    assert t[..|name|] == name && t[|name| + 1..] == rest;
  }

  lemma RunThenToken(x: Context, run: string, name: string, rest: string)
    requires AsciiLaws(x.unicode) && IsRun(run) && IsPlain(name)
    ensures SegmentWalk(x, run + ("{" + (name + ("}" + rest))))
            == After(run, [], [], TokenThen(x, name, SegmentWalk(x, rest)))
  {
    hide AsciiLaws, SegmentWalk, BraceWalk, TokenThen, After;
    RunThenBrace(x, run, "{" + (name + ("}" + rest)));
    BraceIsToken(x, name, rest);
  }

  /** Walking a level's rendering gives what the parts give. */
  lemma {:induction false} LevelWalk(x: Context, run: string, level: seq<PatternPart>)
    requires AsciiLaws(x.unicode) && PlainNames(x.registry)
    requires IsRun(run) && AllOrdinary(x.registry, level) && NoSlashPart(level)
    ensures SegmentWalk(x, run + Render(level)) == After(run, [], [], PartsWalk(x, level))
    decreases |level|
  {
    hide SegmentWalk, TokenWalk, AsciiLaws, After;
    if level == [] {
      assert run + "" == run;
      AfterEndOfRun(x, run);
    } else {
      var part, rest := level[0], level[1..];
      assert part in level && Ordinary(x.registry, part) && !IsSlash(part);
      assert forall p :: p in rest ==> p in level;
      if part.kind == TOKEN {
        LevelWalk(x, "", rest);
        assert "" + Render(rest) == Render(rest);
        AfterNothing(PartsWalk(x, rest));
        RunThenToken(x, run, part.value, Render(rest));
        RenderToken(part, rest);
        assert level == [part] + rest;
      } else {
        Regroup(run, part.value, Render(rest));
        LevelWalk(x, run + part.value, rest);
        var none: seq<string> := [];
        AfterTwice(run, none, none, part.value, none, none, PartsWalk(x, rest));
        assert none + none == none;
      }
    }
  }

  lemma RenderToken(part: PatternPart, rest: seq<PatternPart>)
    requires part.kind == TOKEN
    ensures Render([part] + rest) == "{" + (part.value + ("}" + Render(rest)))
  {
    assert ([part] + rest)[1..] == rest;
    Regroup("{", part.value + "}", Render(rest));
    Regroup(part.value, "}", Render(rest));
  }

  lemma AfterEndOfRun(x: Context, run: string)
    requires AsciiLaws(x.unicode) && IsRun(run)
    ensures SegmentWalk(x, run) == After(run, [], [], Walk(Ok(""), [], []))
  {
    hide Literal;
    RunHasNoBrace(run);
    assert run + "" == run;
    if run != "" {
      FindAbsent(run, '{');
      RunPasses(x, run);
    }
  }

  // ----- All levels ---------------------------------------------------------

  /** The walk over all segments when empty ones are kept. */
  ghost function FullWalk(x: Context, segments: seq<string>): Levels {
    if segments == [] then Levels(Ok([]), [], [])
    else
      var w := SegmentWalk(x, segments[0]);
      match w.result
      case Err(e) => Levels(Err(e), w.missing, w.looked)
      case Ok(level) => AfterLevels([level], w.missing, w.looked, FullWalk(x, segments[1..]))
  }

  /** One text per segment, empty exactly for the empty segments. */
  ghost predicate OnePerSegment(all: seq<string>, segments: seq<string>) {
    |all| == |segments| && forall i :: 0 <= i < |segments| ==> (all[i] == "" <==> segments[i] == "")
  }

  /** Skipping the empty segments drops the empty levels and nothing else. */
  lemma {:induction false} SkippingDropsEmptyLevels(x: Context, segments: seq<string>)
    requires SafeFallbacks(x.registry)
    ensures var full, skipped := FullWalk(x, segments), SegmentsWalk(x, segments);
            && skipped.missing == full.missing
            && match full.result
               case Ok(all) => OnePerSegment(all, segments) && skipped.result == Ok(NonEmpty(all))
               case Err(e) => skipped.result == Err(e)
  {
    hide SegmentWalk, SafeFallbacks, IsTrimmed;
    if segments != [] {
      SkippingDropsEmptyLevels(x, segments[1..]);
      if segments[0] == "" {
        EmptySegmentWalk(x);
        var rest := FullWalk(x, segments[1..]);
        assert [] + rest.missing == rest.missing;
        if rest.result.Ok? {
          DropFirst("", rest.result.value, segments);
          var none: seq<string> := [];
          assert none + NonEmpty(rest.result.value) == NonEmpty(rest.result.value);
        }
      } else if SegmentWalk(x, segments[0]).result.Ok? {
        SegmentIsTrimmed(x, segments[0]);
        TrimmedIsNotEmpty(SegmentWalk(x, segments[0]).result.value);
        var rest := FullWalk(x, segments[1..]);
        if rest.result.Ok? {
          DropFirst(SegmentWalk(x, segments[0]).result.value, rest.result.value, segments);
        }
      }
    }
  }

  lemma EmptySegmentWalk(x: Context)
    ensures SegmentWalk(x, "") == Walk(Ok(""), [], [])
  {}

  lemma TrimmedIsNotEmpty(s: string)
    requires IsTrimmed(s)
    ensures s != ""
  {}

  lemma DropFirst(first: string, rest: seq<string>, segments: seq<string>)
    requires segments != [] && (first == "" <==> segments[0] == "") && OnePerSegment(rest, segments[1..])
    ensures OnePerSegment([first] + rest, segments)
    ensures NonEmpty([first] + rest) == (if first == "" then [] else [first]) + NonEmpty(rest)
  {
    var all := [first] + rest;
    assert all[1..] == rest;
    forall i | 0 <= i < |segments| ensures all[i] == "" <==> segments[i] == "" {
      if i > 0 {
        assert all[i] == rest[i - 1] && segments[i] == segments[1..][i - 1];
      }
    }
  }

  /** The walk over the parts says what the walk over the rendered segments says, joined by slashes. */
  ghost predicate Corresponds(w: Walk, full: Levels) {
    && w.missing == full.missing
    && match (w.result, full.result)
       case (Ok(text), Ok(all)) => all != [] && text == Join(all, '/')
       case (Err(e), Err(f)) => e == f
       case _ => false
  }

  /** The first slash part, or the length. */
  ghost function FirstSlash(parts: seq<PatternPart>): (k: nat)
    ensures k <= |parts| && NoSlashPart(parts[..k])
    ensures k < |parts| ==> IsSlash(parts[k])
  {
    if parts == [] || IsSlash(parts[0]) then 0
    else
      var k := FirstSlash(parts[1..]);
      assert parts[..k + 1] == [parts[0]] + parts[1..][..k];
      k + 1
  }

  lemma {:induction false} RenderConcat(a: seq<PatternPart>, b: seq<PatternPart>)
    ensures Render(a + b) == Render(a) + Render(b)
  {
    if a == [] {
      assert a + b == b && "" + Render(b) == Render(b);
    } else {
      assert (a + b)[1..] == a[1..] + b;
      RenderConcat(a[1..], b);
    }
  }

  lemma {:induction false} LevelHasNoSlash(registry: Registry, level: seq<PatternPart>)
    requires PlainNames(registry) && AllOrdinary(registry, level) && NoSlashPart(level)
    ensures '/' !in Render(level)
  {
    if level != [] {
      var part := level[0];
      assert part in level && Ordinary(registry, part) && !IsSlash(part);
      assert forall p :: p in level[1..] ==> p in level;
      LevelHasNoSlash(registry, level[1..]);
      if part.kind == TOKEN {
        assert IsPlain(part.value);
      }
      assert '/' !in RenderPart(part);
    }
  }

  /** Walking a list in two parts. */
  ghost function ThenParts(first: Walk, second: Walk): Walk {
    match first.result case Err(_) => first case Ok(text) => After(text, first.missing, first.looked, second)
  }

  lemma {:induction false} PartsWalkConcat(x: Context, a: seq<PatternPart>, b: seq<PatternPart>)
    ensures PartsWalk(x, a + b) == ThenParts(PartsWalk(x, a), PartsWalk(x, b))
  {
    hide TokenWalk;
    var rest := PartsWalk(x, b);
    if a == [] {
      assert a + b == b;
      AfterNothing(rest);
    } else {
      assert (a + b)[1..] == a[1..] + b;
      PartsWalkConcat(x, a[1..], b);
      var tail := PartsWalk(x, a[1..]);
      if tail.result.Ok? {
        if a[0].kind == TOKEN && TokenWalk(x, a[0].value).result.Ok? {
          var token := TokenWalk(x, a[0].value);
          AfterTwice(token.result.value, token.missing, token.looked,
                     tail.result.value, tail.missing, tail.looked, rest);
        } else if a[0].kind == SEPARATOR {
          AfterTwice(a[0].value, [], [], tail.result.value, tail.missing, tail.looked, rest);
        }
      }
    }
  }

  /** A level and what follows it, on both sides. */
  lemma CorrespondsStep(level: Walk, w: Walk, full: Levels)
    requires Corresponds(w, full)
    ensures Corresponds(ThenParts(level, After("/", [], [], w)),
                        match level.result
                        case Err(e) => Levels(Err(e), level.missing, level.looked)
                        case Ok(text) => AfterLevels([text], level.missing, level.looked, full))
  {
    assert [] + w.missing == w.missing;
    if level.result.Ok? && w.result.Ok? {
      var all := full.result.value;
      assert ([level.result.value] + all)[1..] == all;
      Regroup(level.result.value, "/", w.result.value);
    }
  }

  lemma CorrespondsEnd(level: Walk)
    ensures Corresponds(level,
                        match level.result
                        case Err(e) => Levels(Err(e), level.missing, level.looked)
                        case Ok(text) => AfterLevels([text], level.missing, level.looked, Levels(Ok([]), [], [])))
  {
    assert level.missing + [] == level.missing;
  }

  /** What the first slash does to the rendering and its segments. */
  lemma SplitAtSlash(registry: Registry, level: seq<PatternPart>, slash: PatternPart, rest: seq<PatternPart>)
    requires PlainNames(registry) && AllOrdinary(registry, level) && NoSlashPart(level) && IsSlash(slash)
    ensures Split(Render(level + ([slash] + rest)), '/') == [Render(level)] + Split(Render(rest), '/')
  {
    hide Split, AllOrdinary, PlainNames, NoSlashPart;
    RenderConcat(level, [slash] + rest);
    assert ([slash] + rest)[1..] == rest;
    Regroup(Render(level), "/", Render(rest));
    LevelHasNoSlash(registry, level);
    SplitFirst(Render(level), Render(rest), '/');
  }

  lemma OneLevel(x: Context, level: seq<PatternPart>)
    requires AsciiLaws(x.unicode) && PlainNames(x.registry) && AllOrdinary(x.registry, level) && NoSlashPart(level)
    ensures SegmentWalk(x, Render(level)) == PartsWalk(x, level)
  {
    hide SegmentWalk, PartsWalk, AsciiLaws, PlainNames, AllOrdinary, NoSlashPart, Render, After;
    LevelWalk(x, "", level);
    assert "" + Render(level) == Render(level);
    AfterNothing(PartsWalk(x, level));
  }

  lemma {:induction false} WalksCorrespond(x: Context, parts: seq<PatternPart>)
    requires AsciiLaws(x.unicode) && PlainNames(x.registry) && AllOrdinary(x.registry, parts)
    ensures Corresponds(PartsWalk(x, parts), FullWalk(x, Split(Render(parts), '/')))
    decreases |parts|
  {
    hide SegmentWalk, TokenWalk, AsciiLaws, PlainNames, Corresponds, After, AfterLevels, ThenParts, Split, Render;
    var k := FirstSlash(parts);
    var level := parts[..k];
    assert forall p :: p in level ==> p in parts;
    OneLevel(x, level);
    if k == |parts| {
      assert level == parts;
      LevelHasNoSlash(x.registry, parts);
      SplitNothing(Render(parts));
      CorrespondsEnd(PartsWalk(x, parts));
    } else {
      var slash, rest := parts[k], parts[k + 1..];
      assert parts == level + ([slash] + rest);
      assert forall p :: p in rest ==> p in parts;
      WalksCorrespond(x, rest);
      SplitAtSlash(x.registry, level, slash, rest);
      PartsWalkConcat(x, level, [slash] + rest);
      assert ([slash] + rest)[1..] == rest;
      CorrespondsStep(PartsWalk(x, level), PartsWalk(x, rest), FullWalk(x, Split(Render(rest), '/')));
      assert ([Render(level)] + Split(Render(rest), '/'))[1..] == Split(Render(rest), '/');
    }
  }

  lemma SplitNothing(s: string)
    requires '/' !in s
    ensures Split(s, '/') == [s]
  {
    FindAbsent(s, '/');
  }

  // ----- Empty levels -------------------------------------------------------

  ghost predicate AllNonEmpty(segments: seq<string>) {
    forall s :: s in segments ==> s != ""
  }

  /** An empty segment comes from a leading, trailing or doubled slash. */
  lemma {:induction false} EmptyLevelsAreSlashes(registry: Registry, parts: seq<PatternPart>)
    requires PlainNames(registry) && AllOrdinary(registry, parts)
    ensures AllNonEmpty(Split(Render(parts), '/')) <==> NoEmptyLevel(parts)
    decreases |parts|
  {
    hide PlainNames, Split, Ordinary, Render, AllNonEmpty, NoEmptyLevel, NoSlashPart, IsSlash;
    var k := FirstSlash(parts);
    var level := parts[..k];
    assert forall p :: p in level ==> p in parts;
    RenderIsEmpty(registry, level);
    if k == |parts| {
      assert level == parts;
      LevelHasNoSlash(registry, parts);
      SplitNothing(Render(parts));
      var none: seq<string> := [];
      AllNonEmptyFirst(Render(parts), none);
      assert [Render(parts)] + none == [Render(parts)];
      NothingIsEmpty();
      NoSlashNoEmptyLevel(parts);
    } else {
      var slash, rest := parts[k], parts[k + 1..];
      assert parts == level + ([slash] + rest);
      assert forall p :: p in rest ==> p in parts;
      EmptyLevelsAreSlashes(registry, rest);
      SplitAtSlash(registry, level, slash, rest);
      AllNonEmptyFirst(Render(level), Split(Render(rest), '/'));
      SlashesInTwo(parts, k);
    }
  }

  lemma AllNonEmptyFirst(first: string, rest: seq<string>)
    ensures AllNonEmpty([first] + rest) <==> first != "" && AllNonEmpty(rest)
  {
    assert forall s :: s in [first] + rest <==> s == first || s in rest;
    if AllNonEmpty([first] + rest) {
      assert first in [first] + rest;
    }
  }

  lemma NothingIsEmpty()
    ensures AllNonEmpty([])
  {}

  lemma NoSlashNoEmptyLevel(parts: seq<PatternPart>)
    requires NoSlashPart(parts)
    ensures NoEmptyLevel(parts) <==> parts != []
  {
    hide IsSlash;
    assert forall i :: 0 <= i < |parts| ==> parts[i] in parts;
  }

  /** The first slash part at `k` splits the list. */
  lemma SlashesInTwo(parts: seq<PatternPart>, k: nat)
    requires k < |parts| && NoSlashPart(parts[..k]) && IsSlash(parts[k])
    ensures NoEmptyLevel(parts) <==> k > 0 && NoEmptyLevel(parts[k + 1..])
  {
    hide IsSlash;
    LevelHasNone(parts, k);
    var rest := parts[k + 1..];
    if NoEmptyLevel(parts) {
      RestHasNoEmptyLevel(parts, k);
    }
    if k > 0 && NoEmptyLevel(rest) {
      forall i | 0 <= i < |parts| - 1 ensures !(IsSlash(parts[i]) && IsSlash(parts[i + 1])) {
        if i > k {
          assert parts[i] == rest[i - k - 1] && parts[i + 1] == rest[i - k - 1 + 1];
        } else if i == k {
          assert parts[i + 1] == rest[0];
        }
      }
    }
  }

  lemma RestHasNoEmptyLevel(parts: seq<PatternPart>, k: nat)
    requires k < |parts| && IsSlash(parts[k]) && NoEmptyLevel(parts)
    ensures k > 0 && NoEmptyLevel(parts[k + 1..])
  {
    hide IsSlash;
    var rest := parts[k + 1..];
    assert k + 1 < |parts|;
    assert rest[|rest| - 1] == parts[|parts| - 1] && rest[0] == parts[k + 1];
    forall i | 0 <= i < |rest| - 1 ensures !(IsSlash(rest[i]) && IsSlash(rest[i + 1])) {
      assert rest[i] == parts[k + 1 + i] && rest[i + 1] == parts[k + 1 + i + 1];
    }
  }

  lemma LevelHasNone(parts: seq<PatternPart>, k: nat)
    requires k <= |parts| && NoSlashPart(parts[..k])
    ensures forall i :: 0 <= i < k ==> !IsSlash(parts[i])
  {
    hide IsSlash;
    forall i | 0 <= i < k ensures !IsSlash(parts[i]) {
      assert parts[i] in parts[..k];
    }
  }

  lemma RenderIsEmpty(registry: Registry, parts: seq<PatternPart>)
    requires AllOrdinary(registry, parts)
    ensures Render(parts) == "" <==> parts == []
    ensures parts != [] ==> !IsBlank(Render(parts))
  {
    if parts != [] {
      assert parts[0] in parts;
      assert !IsWhitespace(Render(parts)[0]);
    }
  }

  // ----- Agreement ----------------------------------------------------------

  lemma {:induction false} OrdinaryPartsAreValid(registry: Registry, parts: seq<PatternPart>)
    requires AllOrdinary(registry, parts)
    ensures PartsFault(registry, parts).None?
  {
    if parts != [] {
      assert parts[0] in parts;
      assert forall p :: p in parts[1..] ==> p in parts;
      OrdinaryPartsAreValid(registry, parts[1..]);
    }
  }

  /** The same path and the same missing tokens in the same order, or the same error. */
  ghost predicate SameAnswer(a: Result<ResolveResult, ResolveError>, b: Result<ResolveResult, ResolveError>) {
    match (a, b)
    case (Ok(r), Ok(s)) => r.relativePath == s.relativePath && r.missingTokens == s.missingTokens
    case (Err(e), Err(f)) => e == f
    case _ => false
  }

  /** The answers as walks over the same segments, one keeping and one skipping the empty ones. */
  lemma OutcomesAreWalks(x: Context, config: Config, parts: seq<PatternPart>)
    requires AsciiLaws(x.unicode) && PlainNames(x.registry) && SafeFallbacks(x.registry)
    requires AllOrdinary(x.registry, parts) && parts != []
    ensures var full := FullWalk(x, Split(Render(parts), '/'));
            var byParts, byPattern := PartsOutcome(x, config, parts), PatternOutcome(x, config, Render(parts));
            match full.result
            case Err(e) => byParts == Err(e) && byPattern == Err(e)
            case Ok(all) =>
              && all != [] && OnePerSegment(all, Split(Render(parts), '/'))
              && byParts == Assembled(x, config, Join(all, '/'), full.missing, PartsWarnings(parts))
              && byPattern == Assembled(x, config, Join(NonEmpty(all), '/'), full.missing, [])
  {
    hide FullWalk, PartsWalk, SegmentsWalk, Assembled, AsciiLaws, PlainNames, SafeFallbacks, AllOrdinary, Split, Join,
         NonEmpty, OnePerSegment, PartsWarnings, IsBlank, Render, PartsFault;
    WalksCorrespond(x, parts);
    SkippingDropsEmptyLevels(x, Split(Render(parts), '/'));
    OrdinaryPartsAreValid(x.registry, parts);
    RenderIsEmpty(x.registry, parts);
  }

  lemma OnlyFullLevels(all: seq<string>, segments: seq<string>)
    requires OnePerSegment(all, segments) && AllNonEmpty(segments)
    ensures NonEmpty(all) == all
  {
    forall s | s in all ensures s != "" {
      var i :| 0 <= i < |all| && all[i] == s;
      assert segments[i] in segments;
    }
    NonEmptyAll(all);
  }

  /** Without an empty level, resolving the parts and resolving their rendering give the same answer. */
  lemma ResolversAgree(x: Context, config: Config, parts: seq<PatternPart>)
    requires AsciiLaws(x.unicode) && PlainNames(x.registry) && SafeFallbacks(x.registry)
    requires AllOrdinary(x.registry, parts) && (parts == [] || NoEmptyLevel(parts))
    ensures SameAnswer(PartsOutcome(x, config, parts), PatternOutcome(x, config, Render(parts)))
  {
    hide FullWalk, AllOrdinary, Split, NonEmpty, OnePerSegment, AllNonEmpty, NoEmptyLevel, AsciiLaws, PlainNames,
         SafeFallbacks, AssembledFault, PartsWarnings, PartsOutcome, PatternOutcome;
    if parts == [] {
      NothingToResolve(x, config);
    } else {
      OutcomesAreWalks(x, config, parts);
      EmptyLevelsAreSlashes(x.registry, parts);
      var full := FullWalk(x, Split(Render(parts), '/'));
      if full.result.Ok? {
        OnlyFullLevels(full.result.value, Split(Render(parts), '/'));
      }
    }
  }

  lemma NothingToResolve(x: Context, config: Config)
    ensures PartsOutcome(x, config, []) == Err(Empty) && PatternOutcome(x, config, Render([])) == Err(Empty)
  {
    assert IsBlank("");
  }

  ghost function Total(parts: seq<string>): nat {
    if parts == [] then 0 else |parts[0]| + Total(parts[1..])
  }

  lemma {:induction false} JoinLength(parts: seq<string>)
    ensures |Join(parts, '/')| == Total(parts) + if parts == [] then 0 else |parts| - 1
  {
    if |parts| > 1 {
      JoinLength(parts[1..]);
    }
  }

  lemma {:induction false} DroppingKeepsText(all: seq<string>)
    ensures Total(NonEmpty(all)) == Total(all)
    ensures |NonEmpty(all)| <= |all| && ("" in all ==> |NonEmpty(all)| < |all|)
  {
    if all != [] {
      var rest := all[1..];
      DroppingKeepsText(rest);
      assert "" in all <==> all[0] == "" || "" in rest;
      if all[0] != "" {
        assert ([all[0]] + NonEmpty(rest))[1..] == NonEmpty(rest);
      } else {
        var none: seq<string> := [];
        assert none + NonEmpty(rest) == NonEmpty(rest);
      }
    }
  }

  /** Dropping an empty level out of several shortens the path. */
  lemma DroppingShortens(all: seq<string>)
    requires "" in all && |all| > 1
    ensures |Join(NonEmpty(all), '/')| < |Join(all, '/')|
  {
    DroppingKeepsText(all);
    JoinLength(all);
    JoinLength(NonEmpty(all));
  }

  lemma SeveralSegments(s: string)
    requires s != "" && !AllNonEmpty(Split(s, '/'))
    ensures |Split(s, '/')| > 1
  {
    var i :| 0 <= i < |Split(s, '/')| && Split(s, '/')[i] == "";
  }

  // ----- Faults with and without the empty levels ---------------------------

  /** The same fault, up to the total length a length fault reports. */
  ghost predicate FaultsAlike(a: Option<ResolveError>, m: nat, b: Option<ResolveError>, n: nat) {
    match (a, b)
    case (None, None) => true
    case (Some(PathTooLong(p, k)), Some(PathTooLong(q, l))) => p == m && q == n && k == l
    case (Some(e), Some(f)) => e == f && !e.PathTooLong?
    case _ => false
  }

  lemma {:induction false} EmptyLevelsHaveNoFault(u: Unicode, config: Config, m: nat, n: nat, all: seq<string>)
    ensures FaultsAlike(SegmentsFault(u, config, m, all), m, SegmentsFault(u, config, n, NonEmpty(all)), n)
  {
    if all != [] {
      EmptyLevelsHaveNoFault(u, config, m, n, all[1..]);
      OneFault(u, config, m, n, all[0]);
      hide SegmentFault;
      if all[0] == "" {
        var none: seq<string> := [];
        assert none + NonEmpty(all[1..]) == NonEmpty(all[1..]);
      } else {
        assert ([all[0]] + NonEmpty(all[1..]))[1..] == NonEmpty(all[1..]);
      }
    }
  }

  lemma OneFault(u: Unicode, config: Config, m: nat, n: nat, level: string)
    ensures FaultsAlike(SegmentFault(u, config, m, level), m, SegmentFault(u, config, n, level), n)
    ensures level == "" ==> SegmentFault(u, config, m, level).None?
  {
    hide NamesDevice, Utf8Length;
  }

  lemma LevelsHaveNoSlash(x: Context, segments: seq<string>)
    requires SafeFallbacks(x.registry) && FullWalk(x, segments).result.Ok?
    ensures forall l :: l in FullWalk(x, segments).result.value ==> '/' !in l
  {
    hide FullWalk, SegmentsWalk, SafeFallbacks;
    var all := FullWalk(x, segments).result.value;
    SkippingDropsEmptyLevels(x, segments);
    LevelsAreTrimmed(x, segments);
    NonEmptyMeans(all);
    forall l | l in all ensures '/' !in l {
      if l != "" {
        assert IsTrimmed(l);
      }
    }
  }

  lemma SplitLevels(levels: seq<string>)
    requires forall l :: l in levels ==> '/' !in l
    ensures Split(Join(levels, '/'), '/') == if levels == [] then [""] else levels
  {
    if levels == [] {
      SplitNothing("");
    } else {
      SplitJoin(levels, '/');
    }
  }

  /** The checks of a path with its empty levels and of the path without them. */
  lemma FaultsOfBothPaths(u: Unicode, config: Config, all: seq<string>)
    requires all != [] && forall l :: l in all ==> '/' !in l
    ensures var p, q := Join(all, '/'), Join(NonEmpty(all), '/');
            FaultsAlike(SegmentsFault(u, config, |p|, Split(p, '/')), |p|,
                        SegmentsFault(u, config, |q|, Split(q, '/')), |q|)
  {
    hide Split, Join;
    NonEmptyMeans(all);
    SplitLevels(all);
    SplitLevels(NonEmpty(all));
    EmptyLevelsHaveNoFault(u, config, |Join(all, '/')|, |Join(NonEmpty(all), '/')|, all);
    assert [""][1..] == [];
    assert SegmentsFault(u, config, 0, [""]) == None;
    if NonEmpty(all) == [] {
      JoinNothing();
    }
  }

  lemma TokenNeverTooLong(x: Context, name: string)
    ensures FaultOf(TokenWalk(x, name).result).Some? ==> !FaultOf(TokenWalk(x, name).result).value.PathTooLong?
  {}

  lemma {:induction false} PartsNeverTooLong(x: Context, parts: seq<PatternPart>)
    ensures FaultOf(PartsWalk(x, parts).result).Some? ==> !FaultOf(PartsWalk(x, parts).result).value.PathTooLong?
  {
    hide TokenWalk;
    if parts != [] {
      PartsNeverTooLong(x, parts[1..]);
      TokenNeverTooLong(x, parts[0].value);
    }
  }

  /** An error that is not about length. */
  ghost predicate FailsWithoutLength(r: Result<ResolveResult, ResolveError>) {
    r.Err? && !r.error.PathTooLong?
  }

  /** The two assembled answers agree if and only if the longer one fails for a reason other than length. */
  lemma AssembledApart(x: Context, config: Config, all: seq<string>, missing: seq<string>,
                       warnings: seq<ValidationWarning>)
    requires all != [] && (forall l :: l in all ==> '/' !in l)
    requires |Join(NonEmpty(all), '/')| < |Join(all, '/')|
    ensures var a, b := Assembled(x, config, Join(all, '/'), missing, warnings),
                        Assembled(x, config, Join(NonEmpty(all), '/'), missing, []);
            SameAnswer(a, b) <==> FailsWithoutLength(a)
  {
    hide Join, Split, SegmentsFault;
    FaultsOfBothPaths(x.unicode, config, all);
  }

  /** The part list keeps a leading, trailing or doubled slash and the pattern string drops the empty level;
      only a failure for a reason other than length hides this. */
  lemma ResolversAgreeUnlessShorter(x: Context, config: Config, parts: seq<PatternPart>)
    requires AsciiLaws(x.unicode) && PlainNames(x.registry) && SafeFallbacks(x.registry)
    requires AllOrdinary(x.registry, parts)
    ensures SameAnswer(PartsOutcome(x, config, parts), PatternOutcome(x, config, Render(parts)))
       <==> NoEmptyLevel(parts) || FailsWithoutLength(PartsOutcome(x, config, parts))
  {
    hide FullWalk, AllOrdinary, Split, Join, NonEmpty, NoEmptyLevel, AsciiLaws, PlainNames, SafeFallbacks,
         Assembled, PartsWarnings, PatternOutcome, PartsOutcome, Render, PartsWalk, PartsFault;
    if parts == [] {
      NothingToResolve(x, config);
      ResolversAgree(x, config, parts);
    } else if NoEmptyLevel(parts) {
      ResolversAgree(x, config, parts);
    } else {
      OutcomesAreWalks(x, config, parts);
      EmptyLevelsAreSlashes(x.registry, parts);
      RenderIsEmpty(x.registry, parts);
      SeveralSegments(Render(parts));
      var full := FullWalk(x, Split(Render(parts), '/'));
      if full.result.Ok? {
        var all := full.result.value;
        EmptyKept(all, Split(Render(parts), '/'));
        DroppingShortens(all);
        LevelsHaveNoSlash(x, Split(Render(parts), '/'));
        AssembledApart(x, config, all, full.missing, PartsWarnings(parts));
      } else {
        WalksCorrespond(x, parts);
        PartsNeverTooLong(x, parts);
      }
    }
  }

  // ----- When the parts fail for a reason other than length ------------------

  /** A token whose value, or fallback when it has none, the sanitizer refuses. */
  predicate Refused(x: Context, name: string) {
    && name in x.registry
    && var def := x.registry[name];
       var present := def.sourceField in x.bundle && x.bundle[def.sourceField] != "";
       var raw := if present then x.bundle[def.sourceField] else def.fallback;
       match Sanitize(x.unicode, name, ApplyTransform(x.unicode, raw, def.transform))
       case Ok(_) => false
       case Err(e) => !e.EmptyAfterSanitize?
  }

  ghost predicate SomeRefused(x: Context, parts: seq<PatternPart>) {
    exists n :: n in TokenNames(parts) && Refused(x, n)
  }

  /** What a token shows as, when it is not refused. */
  function TokenText(x: Context, name: string): string {
    match TokenWalk(x, name).result case Ok(s) => s case Err(_) => ""
  }

  /** The text of a part list: its separators and what its tokens show as. */
  function Text(x: Context, parts: seq<PatternPart>): string {
    if parts == [] then ""
    else (if parts[0].kind == TOKEN then TokenText(x, parts[0].value) else parts[0].value) + Text(x, parts[1..])
  }

  /** Some level names a device, and no earlier level is over the byte cap. */
  ghost predicate DeviceFirst(u: Unicode, config: Config, levels: seq<string>) {
    exists i :: 0 <= i < |levels| && DeviceAt(u, config, levels, i)
  }

  ghost predicate DeviceAt(u: Unicode, config: Config, levels: seq<string>, i: int)
    requires 0 <= i < |levels|
  {
    && levels[i] != "" && DeviceBeforeDot(u, levels[i])
    && forall j :: 0 <= j < i ==> Utf8Length(levels[j]) <= config.maxSegmentBytes
  }

  lemma TokenRefused(x: Context, name: string)
    requires name in x.registry
    ensures TokenWalk(x, name).result.Err? <==> Refused(x, name)
  {
    hide Sanitize;
  }

  lemma {:induction false} PartsRefused(x: Context, parts: seq<PatternPart>)
    requires AllOrdinary(x.registry, parts)
    ensures PartsWalk(x, parts).result.Err? <==> SomeRefused(x, parts)
    ensures PartsWalk(x, parts).result.Ok? ==> PartsWalk(x, parts).result.value == Text(x, parts)
  {
    hide TokenWalk, Refused;
    if parts != [] {
      var rest := parts[1..];
      assert parts[0] in parts && forall p :: p in rest ==> p in parts;
      PartsRefused(x, rest);
      if parts[0].kind == TOKEN {
        TokenRefused(x, parts[0].value);
        assert TokenNames(parts) == [parts[0].value] + TokenNames(rest);
        assert forall n :: n in TokenNames(parts) <==> n == parts[0].value || n in TokenNames(rest);
      } else {
        assert TokenNames(parts) == TokenNames(rest);
      }
    }
  }

  lemma DeviceFirstStep(u: Unicode, config: Config, levels: seq<string>)
    requires levels != []
    ensures DeviceFirst(u, config, levels)
       <==> || (levels[0] != "" && DeviceBeforeDot(u, levels[0]))
            || (Utf8Length(levels[0]) <= config.maxSegmentBytes && DeviceFirst(u, config, levels[1..]))
  {
    hide DeviceBeforeDot, Utf8Length;
    var rest := levels[1..];
    forall i | 0 <= i < |rest| && Utf8Length(levels[0]) <= config.maxSegmentBytes && DeviceAt(u, config, rest, i)
      ensures DeviceAt(u, config, levels, i + 1)
    {
      forall j | 0 <= j < i + 1 ensures Utf8Length(levels[j]) <= config.maxSegmentBytes {
        assert j > 0 ==> levels[j] == rest[j - 1];
      }
    }
    forall i | 0 < i < |levels| && DeviceAt(u, config, levels, i)
      ensures DeviceAt(u, config, rest, i - 1) && Utf8Length(levels[0]) <= config.maxSegmentBytes
    {
      assert forall j :: 0 <= j < i - 1 ==> rest[j] == levels[j + 1];
    }
    if levels[0] != "" && DeviceBeforeDot(u, levels[0]) {
      assert DeviceAt(u, config, levels, 0);
    }
  }

  lemma {:induction false} DeviceFaults(u: Unicode, config: Config, total: nat, levels: seq<string>)
    requires forall l :: l in levels ==> !IsTraversal(l)
    ensures var fault := SegmentsFault(u, config, total, levels);
            fault.Some? && !fault.value.PathTooLong? <==> DeviceFirst(u, config, levels)
  {
    hide NamesDevice, DeviceBeforeDot, DeviceFirst;
    if levels == [] {
      NoDevice(u, config);
    } else {
      assert levels[0] in levels && forall l :: l in levels[1..] ==> l in levels;
      DeviceFaults(u, config, total, levels[1..]);
      DeviceFirstStep(u, config, levels);
      NamesDeviceMeans(u, levels[0]);
    }
  }

  lemma NoDevice(u: Unicode, config: Config)
    ensures !DeviceFirst(u, config, [])
  {}

  lemma LevelsNeverTraverse(x: Context, segments: seq<string>)
    requires SafeFallbacks(x.registry) && FullWalk(x, segments).result.Ok?
    ensures forall l :: l in FullWalk(x, segments).result.value ==> !IsTraversal(l)
  {
    hide FullWalk, SegmentsWalk, SafeFallbacks;
    var all := FullWalk(x, segments).result.value;
    SkippingDropsEmptyLevels(x, segments);
    LevelsAreTrimmed(x, segments);
    NonEmptyMeans(all);
    forall l | l in all ensures !IsTraversal(l) {
      if l != "" {
        assert IsTrimmed(l);
      }
    }
  }

  /** The levels of a resolved part list, none of which traverses. */
  lemma PathLevels(x: Context, parts: seq<PatternPart>)
    requires AsciiLaws(x.unicode) && PlainNames(x.registry) && SafeFallbacks(x.registry)
    requires AllOrdinary(x.registry, parts) && PartsWalk(x, parts).result.Ok?
    ensures forall l :: l in Split(PartsWalk(x, parts).result.value, '/') ==> !IsTraversal(l)
  {
    hide AsciiLaws, PlainNames, SafeFallbacks, AllOrdinary, PartsWalk, FullWalk, Split, Join, IsTraversal;
    WalksCorrespond(x, parts);
    var segments := Split(Render(parts), '/');
    LevelsHaveNoSlash(x, segments);
    LevelsNeverTraverse(x, segments);
    SplitLevels(FullWalk(x, segments).result.value);
  }

  lemma FailsWithoutLengthExactly(x: Context, config: Config, parts: seq<PatternPart>)
    requires AsciiLaws(x.unicode) && PlainNames(x.registry) && SafeFallbacks(x.registry)
    requires AllOrdinary(x.registry, parts)
    ensures FailsWithoutLength(PartsOutcome(x, config, parts))
       <==> parts == [] || SomeRefused(x, parts) || DeviceFirst(x.unicode, config, Split(Text(x, parts), '/'))
  {
    hide AsciiLaws, PlainNames, SafeFallbacks, AllOrdinary, PartsWalk, SomeRefused, DeviceFirst, Split, SegmentsFault,
         PartsWarnings, PartsFault, Text, IsTraversal;
    OrdinaryPartsAreValid(x.registry, parts);
    PartsRefused(x, parts);
    PartsNeverTooLong(x, parts);
    if PartsWalk(x, parts).result.Ok? {
      PathLevels(x, parts);
      var path := PartsWalk(x, parts).result.value;
      DeviceFaults(x.unicode, config, |path|, Split(path, '/'));
    }
  }

  /** For every list of tokens and slash, dash and underscore separators, both resolvers answer alike if and
      only if the list is empty, or has no leading, trailing or doubled slash, or the sanitizer refuses the
      value of one of its tokens, or one of the levels it spells names a device, with no level over the
      byte cap before it. */
  lemma ResolversAgreeExactly(x: Context, config: Config, parts: seq<PatternPart>)
    requires AsciiLaws(x.unicode) && PlainNames(x.registry) && SafeFallbacks(x.registry)
    requires AllOrdinary(x.registry, parts)
    ensures SameAnswer(PartsOutcome(x, config, parts), PatternOutcome(x, config, Render(parts)))
       <==> || parts == []
            || NoEmptyLevel(parts)
            || SomeRefused(x, parts)
            || DeviceFirst(x.unicode, config, Split(Text(x, parts), '/'))
  {
    hide *;
    ResolversAgreeUnlessShorter(x, config, parts);
    FailsWithoutLengthExactly(x, config, parts);
  }

  lemma SlashSegments()
    ensures Split("/", '/') == ["", ""] && Split("", '/') == [""]
  {
    SplitNothing("");
    var none := "";
    assert none + ['/'] + none == "/";
    SplitFirst(none, none, '/');
  }

  lemma EmptySegmentsPass(u: Unicode, config: Config, total: nat, segments: seq<string>)
    requires forall s :: s in segments ==> s == ""
    ensures SegmentsFault(u, config, total, segments).None?
  {
    if segments != [] {
      assert segments[0] in segments;
      assert forall s :: s in segments[1..] ==> s in segments;
      EmptySegmentsPass(u, config, total, segments[1..]);
    }
  }

  lemma LoneSlashPart(x: Context)
    ensures PartsWalk(x, [PatternPart(SEPARATOR, "/")]) == Walk(Ok("/"), [], [])
    ensures PartsFault(x.registry, [PatternPart(SEPARATOR, "/")]).None?
  {
    var part := PatternPart(SEPARATOR, "/");
    assert [part][1..] == [];
    var end := PartsWalk(x, [part][1..]);
    assert end == Walk(Ok(""), [], []);
    assert PartsWalk(x, [part]) == After("/", [], [], end);
    assert "/" + "" == "/";
  }

  /** A lone slash resolves to `/` as a part and to the empty path as a pattern string. */
  lemma LoneSlashSplitsTheResolvers(x: Context)
    ensures var parts := [PatternPart(SEPARATOR, "/")];
            PartsOutcome(x, DEFAULT_CONFIG, parts) == Ok(ResolveResult("/", [], PartsWarnings(parts)))
    ensures PatternOutcome(x, DEFAULT_CONFIG, "/") == Ok(ResolveResult("", [], []))
  {
    hide PartsWalk, PartsFault, PartsWarnings, SegmentWalk, Split, SegmentsFault;
    LoneSlashPart(x);
    SlashSegments();
    EmptySegmentsPass(x.unicode, DEFAULT_CONFIG, 1, ["", ""]);
    EmptySegmentsPass(x.unicode, DEFAULT_CONFIG, 0, [""]);
    assert ["", ""][1..] == [""] && [""][1..] == [];
    assert PatternWalk(x, "/") == SegmentsWalk(x, [""]) == SegmentsWalk(x, []);
    assert !IsWhitespace("/"[0]);
  }

  lemma EmptyKept(all: seq<string>, segments: seq<string>)
    requires OnePerSegment(all, segments) && !AllNonEmpty(segments)
    ensures "" in all
  {
    var i :| 0 <= i < |segments| && segments[i] == "";
    assert all[i] == "";
  }

  // ----- The shipped registry and the default patterns ----------------------

  lemma ShippedNames(n: string)
    requires n in V1_REGISTRY
    ensures n in {"target", "filter", "date", "frame_type", "camera", "exposure", "gain", "binning", "set_temp"}
  {}

  lemma PlainWords()
    ensures IsPlain("target") && IsPlain("filter") && IsPlain("date") && IsPlain("gain") && IsPlain("camera")
  {}

  lemma MorePlainWords()
    ensures IsPlain("frame_type") && IsPlain("exposure") && IsPlain("binning") && IsPlain("set_temp")
  {}

  lemma ShippedNamesArePlain(n: string)
    requires n in V1_REGISTRY
    ensures IsPlain(n)
  {
    hide IsPlain;
    ShippedNames(n);
    PlainWords();
    MorePlainWords();
    hide V1_REGISTRY;
  }

  lemma ShippedFallbackIsTrimmed(n: string)
    requires n in V1_REGISTRY
    ensures IsTrimmed(V1_REGISTRY[n].fallback)
  {
    hide IsTrimmed;
    ShippedNames(n);
    TrimmedWords();
    MoreTrimmedWords();
  }

  lemma TrimmedWords()
    ensures IsTrimmed("unclassified") && IsTrimmed("nofilter") && IsTrimmed("undated") && IsTrimmed("unknown")
    ensures IsTrimmed("1x1")
  {}

  lemma MoreTrimmedWords()
    ensures IsTrimmed("unknown-camera") && IsTrimmed("unknown-exposure") && IsTrimmed("unknown-gain")
    ensures IsTrimmed("untempered")
  {}

  /** What the pattern laws ask of a registry holds of the shipped one. */
  lemma ShippedRegistryIsLawful()
    ensures PlainNames(V1_REGISTRY) && SafeFallbacks(V1_REGISTRY)
  {
    hide IsPlain, IsTrimmed, V1_REGISTRY;
    forall n | n in V1_REGISTRY ensures IsPlain(n) {
      ShippedNamesArePlain(n);
    }
    forall n | n in V1_REGISTRY ensures IsTrimmed(V1_REGISTRY[n].fallback) {
      ShippedFallbackIsTrimmed(n);
    }
  }

  lemma ScanAround(before: string, name: string, after: string)
    requires '{' !in before && '}' !in name
    ensures TokensIn(before + ("{" + (name + ("}" + after)))) == [name] + TokensIn(after)
  {
    hide TokensIn;
    ScanSkips(before, "{" + (name + ("}" + after)));
    ScanToken(name, after);
  }

  function DefaultTokens(c: FrameTypeClass): seq<string> {
    match c
    case Light => ["target", "filter", "date"]
    case Flat => ["filter", "date"]
    case Dark => ["exposure"]
    case MasterFlat => ["filter"]
    case MasterDark => ["exposure"]
    case _ => []
  }

  lemma LightText()
    ensures "{target}/{filter}/{date}/light/"
            == "" + ("{" + ("target" + ("}" + ("/{filter}" + ("/{date}/" + "light/")))))
  {}

  lemma LightScan()
    ensures TokensIn("{target}/{filter}/{date}/light/") == ["target", "filter", "date"]
  {
    hide TokensIn;
    LightText();
    ScanAround("", "target", "/{filter}" + ("/{date}/" + "light/"));
    DateScan("light/");
  }

  lemma DateScan(rest: string)
    requires '{' !in rest
    ensures TokensIn("/{filter}" + ("/{date}/" + rest)) == ["filter", "date"]
  {
    hide TokensIn;
    assert "/{filter}" + ("/{date}/" + rest) == "/" + ("{" + ("filter" + ("}" + ("/{date}/" + rest))));
    ScanAround("/", "filter", "/{date}/" + rest);
    assert "/{date}/" + rest == "/" + ("{" + ("date" + ("}" + ("/" + rest))));
    ScanAround("/", "date", "/" + rest);
    ScanWithoutBrace("/" + rest);
  }

  lemma FlatScan()
    ensures TokensIn("flats/{filter}/{date}/") == ["filter", "date"]
  {
    hide TokensIn;
    assert "flats/{filter}/{date}/" == "flats" + ("/{filter}" + ("/{date}/" + ""));
    ScanSkips("flats", "/{filter}" + ("/{date}/" + ""));
    DateScan("");
  }

  lemma OneTokenScan(before: string, name: string)
    requires '{' !in before && '}' !in name
    ensures TokensIn(before + ("{" + (name + "}/"))) == [name]
  {
    hide TokensIn;
    assert "}/" == "}" + "/";
    ScanAround(before, name, "/");
    ScanWithoutBrace("/");
  }

  lemma ExposureScan()
    ensures TokensIn("darks/{exposure}/") == ["exposure"]
  {
    assert "darks/{exposure}/" == "darks/" + ("{" + ("exposure" + "}/"));
    OneTokenScan("darks/", "exposure");
  }

  lemma MasterFlatScan()
    ensures TokensIn("masters/flats/{filter}/") == ["filter"]
  {
    assert "masters/flats/{filter}/" == "masters/flats/" + ("{" + ("filter" + "}/"));
    OneTokenScan("masters/flats/", "filter");
  }

  lemma MasterDarkScan()
    ensures TokensIn("masters/darks/{exposure}/") == ["exposure"]
  {
    assert "masters/darks/{exposure}/" == "masters/darks/" + ("{" + ("exposure" + "}/"));
    OneTokenScan("masters/darks/", "exposure");
  }

  lemma DefaultsScan(c: FrameTypeClass)
    ensures TokensIn(DefaultPattern(c)) == DefaultTokens(c)
  {
    hide TokensIn;
    match c
    case Light => LightScan();
    case Flat => FlatScan();
    case Dark => ExposureScan();
    case MasterFlat => MasterFlatScan();
    case MasterDark => MasterDarkScan();
    case _ => ScanWithoutBrace(DefaultPattern(c));
  }

  lemma DefaultsValidate(c: FrameTypeClass)
    ensures PatternFault(V1_REGISTRY, DefaultPattern(c)).None?
  {
    hide TokensIn, UnknownIn;
    DefaultsScan(c);
    DefaultTokensAreShipped(c);
    UnknownInMeans(V1_REGISTRY, DefaultTokens(c));
    assert !IsWhitespace(DefaultPattern(c)[0]);
  }

  lemma DefaultTokensAreShipped(c: FrameTypeClass)
    ensures forall t :: t in DefaultTokens(c) ==> t in V1_REGISTRY
  {
    assert "target" in V1_REGISTRY && "filter" in V1_REGISTRY && "date" in V1_REGISTRY && "exposure" in V1_REGISTRY;
    hide V1_REGISTRY;
  }

  /** A stored override is in effect if and only if it validates, or is the default anyway. */
  lemma EffectivePatternIsTheOverride(c: FrameTypeClass, p: string)
    ensures EffectivePattern(c, Some(p)) == p <==> PatternFault(V1_REGISTRY, p).None? || p == DefaultPattern(c)
    ensures EffectivePattern(c, Some(p)) == p || EffectivePattern(c, Some(p)) == DefaultPattern(c)
    ensures EffectivePattern(c, None) == DefaultPattern(c)
  {
    hide PatternFault, DefaultPattern, V1_REGISTRY;
  }

  /** Whatever override is stored, the pattern in effect validates, and so resolving it never meets an
      unknown token. */
  lemma EffectivePatternResolves(c: FrameTypeClass, override: Option<string>, u: Unicode, bundle: Bundle,
                                 config: Config)
    ensures var p := EffectivePattern(c, override);
            var outcome := PatternOutcome(Context(u, V1_REGISTRY, bundle), config, p);
            && PatternFault(V1_REGISTRY, p).None?
            && (outcome.Err? ==> !outcome.error.UnknownToken?)
  {
    hide TokensIn, PatternOutcome, DefaultPattern, PatternFault, V1_REGISTRY, PlainNames, SafeFallbacks;
    DefaultsValidate(c);
    ShippedRegistryIsLawful();
    ValidatedPatternsResolveKnownTokens(Context(u, V1_REGISTRY, bundle), config, EffectivePattern(c, override));
  }
}
