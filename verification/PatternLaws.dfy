/** How validation and the two resolvers fit together. */
module PatternLaws {
  import opened Options
  import opened SafeFilename
  import opened Texts
  import opened Patterns

  // ----- Scanning a pattern whole, and segment by segment -------------------

  /** Registered names hold none of the characters that structure a pattern. */
  ghost predicate PlainNames(registry: Registry) {
    forall n :: n in registry ==> IsPlain(n)
  }

  predicate IsPlain(s: string) {
    '{' !in s && '}' !in s && '/' !in s
  }

  lemma FindAfter(a: string, b: string, c: char)
    requires c !in a
    ensures Find(a + b, c) == match Find(b, c) case None => None case Some(i) => Some(|a| + i)
  {
    match Find(b, c)
    case None =>
      FindAbsent(a + b, c);
    case Some(i) =>
      var s := a + b;
      assert s[|a| + i] == b[i];
      assert s[..|a| + i] == a + b[..i];
      FindAt(s, c, |a| + i);
  }

  /** Text without an opening brace does not matter. */
  lemma ScanSkips(a: string, b: string)
    requires '{' !in a
    ensures TokensIn(a + b) == TokensIn(b)
  {
    hide Find, TokensAfterBrace;
    FindAfter(a, b, '{');
    if Find(b, '{').Some? {
      DropConcat(a, b, Find(b, '{').value + 1);
    }
  }

  lemma DropConcat<T>(a: seq<T>, b: seq<T>, k: nat)
    requires k <= |b|
    ensures (a + b)[|a| + k..] == b[k..]
  {}

  /** A closed brace yields its name, and the scan goes on behind it. */
  lemma ScanToken(name: string, rest: string)
    requires '}' !in name
    ensures TokensIn("{" + (name + ("}" + rest))) == [name] + TokensIn(rest)
  {
    hide Find;
    var t := name + ("}" + rest);
    var s := "{" + t;
    FindAt(s, '{', 0);
    SliceConcat("{", t);
    FindAfter(name, "}" + rest, '}');
    FindAt("}" + rest, '}', 0);
    SliceConcat(name, "}" + rest);
    SliceConcat("}", rest);
    DropConcat(name, "}" + rest, 1);
  }

  lemma SliceConcat<T>(a: seq<T>, b: seq<T>)
    ensures (a + b)[..|a|] == a && (a + b)[|a|..] == b
  {}

  lemma {:induction false} ScanNeedsClose(s: string)
    requires '}' !in s
    ensures TokensIn(s) == []
  {
    match Find(s, '{')
    case None =>
    case Some(i) => FindAbsent(s[i + 1..], '}');
  }

  ghost predicate NoSlash(tokens: seq<string>) {
    forall t :: t in tokens ==> '/' !in t
  }

  lemma Regroup(a: string, b: string, c: string)
    ensures (a + b) + c == a + (b + c)
  {}

  lemma AroundFound(s: string, c: char)
    requires c in s
    ensures var i := Find(s, c).value; s == s[..i] + ([c] + s[i + 1..]) && c !in s[..i]
  {
    hide Find;
    var i := Find(s, c).value;
    assert s == s[..i] + ([s[i]] + s[i + 1..]);
  }

  /** The scan of a pattern whose tokens hold no slash falls apart at each slash. */
  lemma {:induction false} ScanSplits(seg: string, rest: string)
    requires '/' !in seg && NoSlash(TokensIn(seg + ("/" + rest)))
    ensures TokensIn(seg + ("/" + rest)) == TokensIn(seg) + TokensIn(rest)
    decreases |seg|, 1
  {
    hide TokensIn, NoSlash;
    if '{' in seg {
      AroundFound(seg, '{');
      var open := Find(seg, '{').value;
      var before, after := seg[..open], seg[open + 1..];
      ScanSkips(before, "{" + after);
      Regroup(before, "{" + after, "/" + rest);
      Regroup("{", after, "/" + rest);
      ScanSkips(before, "{" + (after + ("/" + rest)));
      ScanSplitsAtBrace(after, rest);
    } else {
      Regroup(seg, "/", rest);
      ScanSkips(seg + "/", rest);
      ScanSkips(seg, "");
      ScanNeedsClose("");
      assert seg + "" == seg;
      assert [] + TokensIn(rest) == TokensIn(rest);
    }
  }

  lemma {:induction false} ScanSplitsAtBrace(after: string, rest: string)
    requires '/' !in after && NoSlash(TokensIn("{" + (after + ("/" + rest))))
    ensures TokensIn("{" + (after + ("/" + rest))) == TokensIn("{" + after) + TokensIn(rest)
    decreases |after|, 2
  {
    hide TokensIn, NoSlash, Find;
    if '}' in after {
      AroundFound(after, '}');
      var close := Find(after, '}').value;
      ScanSplitsAtClosedBrace(after[..close], after[close + 1..], rest);
    } else if '}' in rest {
      UnclosedTokenHasSlash(after, rest);
    } else {
      ScanNeedsClose(rest);
      ScanNeedsClose("{" + after);
      ScanNeedsClose("{" + (after + ("/" + rest)));
      assert TokensIn("{" + after) + TokensIn(rest) == [];
    }
  }

  lemma {:induction false} ScanSplitsAtClosedBrace(name: string, tail: string, rest: string)
    requires '}' !in name && '/' !in tail
    requires NoSlash(TokensIn("{" + ((name + ("}" + tail)) + ("/" + rest))))
    ensures TokensIn("{" + ((name + ("}" + tail)) + ("/" + rest)))
            == TokensIn("{" + (name + ("}" + tail))) + TokensIn(rest)
    decreases |tail|, 3
  {
    hide TokensIn;
    Regroup(name, "}" + tail, "/" + rest);
    Regroup("}", tail, "/" + rest);
    ScanToken(name, tail);
    ScanToken(name, tail + ("/" + rest));
    var inner := TokensIn(tail + ("/" + rest));
    assert forall t :: t in inner ==> t in [name] + inner;
    ScanSplits(tail, rest);
    assert ([name] + TokensIn(tail)) + TokensIn(rest) == [name] + (TokensIn(tail) + TokensIn(rest));
  }

  /** A brace closed only behind a slash yields a token with a slash in it. */
  lemma UnclosedTokenHasSlash(after: string, rest: string)
    requires '}' !in after && '}' in rest
    ensures !NoSlash(TokensIn("{" + (after + ("/" + rest))))
  {
    hide TokensIn;
    AroundFound(rest, '}');
    var k := Find(rest, '}').value;
    var name, tail := after + ("/" + rest[..k]), rest[k + 1..];
    Regroup(after, "/" + rest[..k], "}" + tail);
    Regroup("/", rest[..k], "}" + tail);
    ScanToken(name, tail);
    var tokens := [name] + TokensIn(tail);
    assert tokens[0] == name && name in tokens;
    assert name[|after|] == '/';
  }

  /** The tokens of the segments, one segment after the other. */
  ghost function SegmentTokens(segments: seq<string>): seq<string> {
    if segments == [] then [] else TokensIn(segments[0]) + SegmentTokens(segments[1..])
  }

  lemma {:induction false} ScanBySegments(pattern: string)
    requires NoSlash(TokensIn(pattern))
    ensures TokensIn(pattern) == SegmentTokens(Split(pattern, '/'))
    decreases |pattern|
  {
    match Find(pattern, '/')
    case None =>
      assert SegmentTokens([pattern]) == TokensIn(pattern) + SegmentTokens([]);
    case Some(i) =>
      var seg, rest := pattern[..i], pattern[i + 1..];
      assert pattern == seg + ("/" + rest);
      ScanSplits(seg, rest);
      assert forall t :: t in TokensIn(rest) ==> t in TokensIn(pattern);
      ScanBySegments(rest);
      assert ([seg] + Split(rest, '/'))[1..] == Split(rest, '/');
  }

  // ----- What the resolver looks up -----------------------------------------

  /** The lookups of a segment follow its scan: a prefix of it, and all of it on success; only a lookup
      can report an unknown token. */
  ghost predicate Follows(x: Context, ok: bool, fault: Option<ResolveError>, looked: seq<string>, tokens: seq<string>) {
    && looked <= tokens
    && (ok ==> looked == tokens)
    && (fault.Some? && fault.value.UnknownToken? ==> fault.value.token in looked && fault.value.token !in x.registry)
  }

  ghost function FaultOf<T>(r: Result<T, ResolveError>): Option<ResolveError> {
    match r case Ok(_) => None case Err(e) => Some(e)
  }

  lemma LiteralNeverUnknown(x: Context, text: string)
    ensures FaultOf(Literal(x, text)).Some? ==> !FaultOf(Literal(x, text)).value.UnknownToken?
  {}

  lemma {:induction false} SegmentFollows(x: Context, rest: string)
    ensures var w := SegmentWalk(x, rest);
            Follows(x, w.result.Ok?, FaultOf(w.result), w.looked, TokensIn(rest))
    decreases |rest|, 1
  {
    hide Literal, BraceWalk, TokensIn, Find;
    if '{' in rest {
      AroundFound(rest, '{');
      var open := Find(rest, '{').value;
      LiteralNeverUnknown(x, rest[..open]);
      ScanSkips(rest[..open], rest[open..]);
      assert rest == rest[..open] + rest[open..];
      BraceFollows(x, rest[open..]);
      assert [] + BraceWalk(x, rest[open..]).looked == BraceWalk(x, rest[open..]).looked;
    } else {
      ScanWithoutBrace(rest);
      LiteralNeverUnknown(x, rest);
    }
  }

  lemma ScanWithoutBrace(rest: string)
    requires '{' !in rest
    ensures TokensIn(rest) == []
  {
    FindAbsent(rest, '{');
  }

  lemma {:induction false} BraceFollows(x: Context, rest: string)
    requires rest != "" && rest[0] == '{'
    ensures var w := BraceWalk(x, rest);
            Follows(x, w.result.Ok?, FaultOf(w.result), w.looked, TokensIn(rest))
    decreases |rest|, 0
  {
    hide Literal, TokenWalk, TokensIn, SegmentWalk, Find, Follows, After;
    ScanAtBrace(rest);
    if Find(rest[1..], '}').None? {
      LiteralFollows(x, rest);
    } else {
      var close := Find(rest[1..], '}').value;
      var name, tail := rest[1..][..close], rest[1..][close + 1..];
      SegmentFollows(x, tail);
      TokenLooksUp(x, name);
      TokenThenFollows(x, TokenWalk(x, name), name, SegmentWalk(x, tail), TokensIn(tail));
    }
  }

  lemma LiteralFollows(x: Context, text: string)
    ensures var w := LiteralWalk(x, text); Follows(x, w.result.Ok?, FaultOf(w.result), w.looked, [])
  {
    LiteralNeverUnknown(x, text);
  }

  lemma TokenThenFollows(x: Context, token: Walk, name: string, tail: Walk, tokens: seq<string>)
    requires token.looked == [name]
    requires FaultOf(token.result).Some? && FaultOf(token.result).value.UnknownToken? ==>
               FaultOf(token.result) == Some(UnknownToken(name)) && name !in x.registry
    requires Follows(x, tail.result.Ok?, FaultOf(tail.result), tail.looked, tokens)
    ensures var w := if token.result.Err? then token else After(token.result.value, token.missing, token.looked, tail);
            Follows(x, w.result.Ok?, FaultOf(w.result), w.looked, [name] + tokens)
  {
    assert forall t :: t in tail.looked ==> t in [name] + tail.looked;
    assert name in [name];
  }

  lemma ScanAtBrace(rest: string)
    requires rest != "" && rest[0] == '{'
    ensures TokensIn(rest) == TokensAfterBrace(rest[1..])
  {
    hide Find, TokensAfterBrace;
    FindAt(rest, '{', 0);
  }

  lemma TokenLooksUp(x: Context, name: string)
    ensures var w := TokenWalk(x, name);
            && w.looked == [name]
            && (FaultOf(w.result).Some? && FaultOf(w.result).value.UnknownToken? ==>
                  FaultOf(w.result) == Some(UnknownToken(name)) && name !in x.registry)
  {}

  lemma {:induction false} SegmentsFollow(x: Context, segments: seq<string>)
    ensures var w := SegmentsWalk(x, segments);
            Follows(x, w.result.Ok?, FaultOf(w.result), w.looked, SegmentTokens(segments))
  {
    hide SegmentWalk, TokensIn;
    if segments != [] {
      SegmentFollows(x, segments[0]);
      SegmentsFollow(x, segments[1..]);
      if segments[0] == "" {
        ScanNeedsClose("");
        assert [] + SegmentTokens(segments[1..]) == SegmentTokens(segments[1..]);
      }
    }
  }

  lemma {:induction false} UnknownInMeans(registry: Registry, tokens: seq<string>)
    ensures UnknownIn(registry, tokens).None? <==> forall t :: t in tokens ==> t in registry
  {
    if tokens != [] {
      assert tokens[0] in tokens;
      assert forall t :: t in tokens <==> t == tokens[0] || t in tokens[1..];
      UnknownInMeans(registry, tokens[1..]);
    }
  }

  /** The token reported is the first unregistered one. */
  lemma {:induction false} UnknownInIsFirst(registry: Registry, tokens: seq<string>)
    ensures UnknownIn(registry, tokens).Some? ==>
              exists i :: 0 <= i < |tokens| && tokens[i] == UnknownIn(registry, tokens).value
                && tokens[i] !in registry && forall j :: 0 <= j < i ==> tokens[j] in registry
  {
    if tokens != [] && tokens[0] in registry && UnknownIn(registry, tokens[1..]).Some? {
      var rest := tokens[1..];
      UnknownInIsFirst(registry, rest);
      var i :| 0 <= i < |rest| && rest[i] == UnknownIn(registry, rest).value
        && rest[i] !in registry && forall j :: 0 <= j < i ==> rest[j] in registry;
      assert tokens[i + 1] == rest[i];
      forall j | 0 <= j < i + 1 ensures tokens[j] in registry {
        assert j > 0 ==> tokens[j] == rest[j - 1];
      }
    }
  }

  /** What `validate_pattern_str` reports: a pattern of whitespace only; else the first unregistered token of
      the scan; else nothing. The resolver rejects the same patterns as empty. */
  lemma PatternFaultMeans(x: Context, config: Config, pattern: string)
    ensures var blank := forall i :: 0 <= i < |pattern| ==> IsWhitespace(pattern[i]);
            var fault := PatternFault(x.registry, pattern);
            && (fault == Some(EmptyPattern) <==> blank)
            && (blank ==> PatternOutcome(x, config, pattern) == Err(Empty))
            && (fault.None? <==> !blank && forall t :: t in TokensIn(pattern) ==> t in x.registry)
            && (fault.Some? && !blank ==>
                  exists i :: 0 <= i < |TokensIn(pattern)| && fault == Some(UnknownPatternToken(TokensIn(pattern)[i]))
                    && TokensIn(pattern)[i] !in x.registry
                    && forall j :: 0 <= j < i ==> TokensIn(pattern)[j] in x.registry)
  {
    hide IsWhitespace, TokensIn, UnknownIn, PatternWalk;
    UnknownInMeans(x.registry, TokensIn(pattern));
    UnknownInIsFirst(x.registry, TokensIn(pattern));
  }

  lemma FaultsNeverUnknown(u: Unicode, config: Config, path: string)
    ensures AssembledFault(u, config, path).Some? ==> !AssembledFault(u, config, path).value.UnknownToken?
  {
    SegmentsNeverUnknown(u, config, |path|, Split(path, '/'));
  }

  lemma {:induction false} SegmentsNeverUnknown(u: Unicode, config: Config, total: nat, segments: seq<string>)
    ensures SegmentsFault(u, config, total, segments).Some? ==>
              !SegmentsFault(u, config, total, segments).value.UnknownToken?
  {
    if segments != [] {
      SegmentsNeverUnknown(u, config, total, segments[1..]);
    }
  }

  /** A pattern that passes `validate_pattern_str` has its tokens looked up in the order of the validator's
      scan, up to the first error and all of them on success, so resolving it never meets an unknown
      token, whatever stray or unterminated braces it holds. */
  lemma ValidatedPatternsResolveKnownTokens(x: Context, config: Config, pattern: string)
    requires PlainNames(x.registry) && PatternFault(x.registry, pattern).None?
    ensures PatternWalk(x, pattern).looked <= TokensIn(pattern)
    ensures PatternWalk(x, pattern).result.Ok? ==> PatternWalk(x, pattern).looked == TokensIn(pattern)
    ensures PatternOutcome(x, config, pattern).Err? ==> !PatternOutcome(x, config, pattern).error.UnknownToken?
  {
    hide TokensIn, SegmentsWalk, AssembledFault, SegmentTokens, Split;
    UnknownInMeans(x.registry, TokensIn(pattern));
    ScanBySegments(pattern);
    var w := PatternWalk(x, pattern);
    SegmentsFollow(x, Split(pattern, '/'));
    if w.result.Ok? {
      FaultsNeverUnknown(x.unicode, config, Join(w.result.value, '/'));
    } else if w.result.error.UnknownToken? {
      PrefixElement(w.looked, TokensIn(pattern), w.result.error.token);
    }
  }

  lemma PrefixElement<T>(a: seq<T>, b: seq<T>, t: T)
    requires a <= b && t in a
    ensures t in b
  {
    var i :| 0 <= i < |a| && a[i] == t;
    assert b[i] == t;
  }

  // ----- What is reported missing -------------------------------------------

  /** A registered token whose value is absent, empty, or sanitized away. */
  predicate Lacks(x: Context, name: string) {
    && name in x.registry
    && var def := x.registry[name];
       || def.sourceField !in x.bundle
       || x.bundle[def.sourceField] == ""
       || match Sanitize(x.unicode, name, ApplyTransform(x.unicode, x.bundle[def.sourceField], def.transform))
          case Err(EmptyAfterSanitize(_, _)) => true
          case _ => false
  }

  /** The names among `looked` that lack a value, in order. */
  function Lacking(x: Context, looked: seq<string>): seq<string> {
    if looked == [] then [] else (if Lacks(x, looked[0]) then [looked[0]] else []) + Lacking(x, looked[1..])
  }

  lemma {:induction false} LackingConcat(x: Context, a: seq<string>, b: seq<string>)
    ensures Lacking(x, a + b) == Lacking(x, a) + Lacking(x, b)
  {
    hide Lacks;
    if a == [] {
      assert a + b == b;
    } else {
      assert (a + b)[1..] == a[1..] + b;
      LackingConcat(x, a[1..], b);
    }
  }

  ghost predicate Reports(x: Context, missing: seq<string>, looked: seq<string>) {
    missing == Lacking(x, looked)
  }

  lemma TokenReports(x: Context, name: string)
    ensures Reports(x, TokenWalk(x, name).missing, TokenWalk(x, name).looked)
  {
    hide Sanitize;
    assert [name][1..] == [];
    assert Lacking(x, [name]) == (if Lacks(x, name) then [name] else []) + Lacking(x, []);
  }

  lemma ReportsConcat(x: Context, m: seq<string>, l: seq<string>, m': seq<string>, l': seq<string>)
    requires Reports(x, m, l) && Reports(x, m', l')
    ensures Reports(x, m + m', l + l')
  {
    LackingConcat(x, l, l');
  }

  lemma NothingLacks(x: Context)
    ensures Reports(x, [], [])
  {}

  lemma {:induction false} SegmentReports(x: Context, rest: string)
    ensures var w := SegmentWalk(x, rest); Reports(x, w.missing, w.looked)
    decreases |rest|, 1
  {
    hide TokenWalk, Literal, Reports, BraceWalk;
    NothingLacks(x);
    if rest != "" && Find(rest, '{').Some? {
      var w := BraceWalk(x, rest[Find(rest, '{').value..]);
      BraceReports(x, rest[Find(rest, '{').value..]);
      assert [] + w.missing == w.missing && [] + w.looked == w.looked;
    }
  }

  lemma {:induction false} BraceReports(x: Context, rest: string)
    requires rest != ""
    ensures var w := BraceWalk(x, rest); Reports(x, w.missing, w.looked)
    decreases |rest|, 0
  {
    hide TokenWalk, Literal, Reports, SegmentWalk;
    NothingLacks(x);
    if Find(rest[1..], '}').Some? {
      var close := Find(rest[1..], '}').value;
      var token, tail := TokenWalk(x, rest[1..][..close]), SegmentWalk(x, rest[1..][close + 1..]);
      TokenReports(x, rest[1..][..close]);
      SegmentReports(x, rest[1..][close + 1..]);
      ReportsConcat(x, token.missing, token.looked, tail.missing, tail.looked);
    }
  }

  lemma {:induction false} SegmentsReport(x: Context, segments: seq<string>)
    ensures var w := SegmentsWalk(x, segments); Reports(x, w.missing, w.looked)
  {
    hide SegmentWalk, Reports;
    NothingLacks(x);
    if segments != [] {
      SegmentReports(x, segments[0]);
      SegmentsReport(x, segments[1..]);
      var w, rest := SegmentWalk(x, segments[0]), SegmentsWalk(x, segments[1..]);
      ReportsConcat(x, w.missing, w.looked, rest.missing, rest.looked);
    }
  }

  lemma {:induction false} PartsReport(x: Context, parts: seq<PatternPart>)
    ensures var w := PartsWalk(x, parts); Reports(x, w.missing, w.looked)
  {
    hide TokenWalk, Reports;
    NothingLacks(x);
    if parts != [] {
      PartsReport(x, parts[1..]);
      var rest := PartsWalk(x, parts[1..]);
      TokenReports(x, parts[0].value);
      var token := TokenWalk(x, parts[0].value);
      ReportsConcat(x, token.missing, token.looked, rest.missing, rest.looked);
      assert [] + rest.missing == rest.missing && [] + rest.looked == rest.looked;
    }
  }

  /** The token names of a part list, in order. */
  function TokenNames(parts: seq<PatternPart>): seq<string> {
    if parts == [] then []
    else (if parts[0].kind == TOKEN then [parts[0].value] else []) + TokenNames(parts[1..])
  }

  lemma {:induction false} PartsLookUpTokens(x: Context, parts: seq<PatternPart>)
    ensures PartsWalk(x, parts).result.Ok? ==> PartsWalk(x, parts).looked == TokenNames(parts)
  {
    if parts != [] {
      PartsLookUpTokens(x, parts[1..]);
      TokenLooksUp(x, parts[0].value);
      hide TokenWalk;
      var rest := PartsWalk(x, parts[1..]);
      assert [] + rest.looked == rest.looked;
    }
  }

  /** A resolved part list reports exactly its tokens that lack a value, in order, once per use. */
  lemma PartsMissingTokens(x: Context, config: Config, parts: seq<PatternPart>)
    requires PartsOutcome(x, config, parts).Ok?
    ensures PartsOutcome(x, config, parts).value.missingTokens == Lacking(x, TokenNames(parts))
  {
    hide PartsWalk, Lacking, TokenNames, AssembledFault, PartsWarnings;
    PartsReport(x, parts);
    PartsLookUpTokens(x, parts);
  }

  /** So does a validated pattern string, by the validator's own scan. */
  lemma PatternMissingTokens(x: Context, config: Config, pattern: string)
    requires PlainNames(x.registry) && PatternFault(x.registry, pattern).None?
    requires PatternOutcome(x, config, pattern).Ok?
    ensures PatternOutcome(x, config, pattern).value.missingTokens == Lacking(x, TokensIn(pattern))
  {
    hide SegmentsWalk, Lacking, TokensIn, AssembledFault, Join, Split;
    SegmentsReport(x, Split(pattern, '/'));
    ValidatedPatternsResolveKnownTokens(x, config, pattern);
  }

  // ----- The levels of a resolved path --------------------------------------

  /** Fallbacks may stand in a path as they are. */
  ghost predicate SafeFallbacks(registry: Registry) {
    forall n :: n in registry ==> IsTrimmed(registry[n].fallback)
  }

  lemma TrimmedConcat(a: string, b: string)
    requires IsTrimmed(a) && (b == "" || IsTrimmed(b))
    ensures IsTrimmed(a + b)
  {
    var s := a + b;
    assert s[0] == a[0];
    assert b != "" ==> s[|s| - 1] == b[|b| - 1];
  }

  lemma TokenIsTrimmed(x: Context, name: string)
    requires SafeFallbacks(x.registry) && TokenWalk(x, name).result.Ok?
    ensures IsTrimmed(TokenWalk(x, name).result.value)
  {
    var def := x.registry[name];
    var present := def.sourceField in x.bundle && x.bundle[def.sourceField] != "";
    var raw := if present then x.bundle[def.sourceField] else def.fallback;
    var value := ApplyTransform(x.unicode, raw, def.transform);
    hide Sanitize, IsTrimmed;
    if Sanitize(x.unicode, name, value).Ok? {
      SanitizedIsOneSegment(x.unicode, name, value);
    }
  }

  lemma LiteralIsTrimmed(x: Context, text: string)
    requires Literal(x, text).Ok?
    ensures IsTrimmed(Literal(x, text).value)
  {
    SanitizedIsOneSegment(x.unicode, "literal", text);
  }

  lemma {:induction false} SegmentIsTrimmed(x: Context, rest: string)
    requires SafeFallbacks(x.registry) && SegmentWalk(x, rest).result.Ok?
    ensures var s := SegmentWalk(x, rest).result.value; if rest == "" then s == "" else IsTrimmed(s)
    decreases |rest|, 1
  {
    hide IsTrimmed, Literal, TokenWalk, SafeFallbacks;
    if rest != "" {
      match Find(rest, '{')
      case None => LiteralIsTrimmed(x, rest);
      case Some(open) =>
        BraceIsTrimmed(x, rest[open..]);
        var tail := BraceWalk(x, rest[open..]).result.value;
        if open > 0 {
          LiteralIsTrimmed(x, rest[..open]);
          TrimmedConcat(Literal(x, rest[..open]).value, tail);
        } else {
          assert "" + tail == tail;
        }
    }
  }

  lemma {:induction false} BraceIsTrimmed(x: Context, rest: string)
    requires SafeFallbacks(x.registry) && rest != "" && BraceWalk(x, rest).result.Ok?
    ensures IsTrimmed(BraceWalk(x, rest).result.value)
    decreases |rest|, 0
  {
    hide IsTrimmed, Literal, TokenWalk, SafeFallbacks;
    match Find(rest[1..], '}')
    case None => LiteralIsTrimmed(x, rest);
    case Some(close) =>
      TokenIsTrimmed(x, rest[1..][..close]);
      SegmentIsTrimmed(x, rest[1..][close + 1..]);
      var tail := rest[1..][close + 1..];
      var a, b := TokenWalk(x, rest[1..][..close]).result.value, SegmentWalk(x, tail).result.value;
      TrimmedConcat(a, b);
  }

  lemma {:induction false} LevelsAreTrimmed(x: Context, segments: seq<string>)
    requires SafeFallbacks(x.registry) && SegmentsWalk(x, segments).result.Ok?
    ensures var levels := SegmentsWalk(x, segments).result.value;
            |levels| == |NonEmpty(segments)| && forall l :: l in levels ==> IsTrimmed(l)
  {
    hide IsTrimmed, SegmentWalk, SafeFallbacks;
    if segments != [] {
      LevelsAreTrimmed(x, segments[1..]);
      if segments[0] != "" {
        SegmentIsTrimmed(x, segments[0]);
        var level := SegmentWalk(x, segments[0]).result.value;
        var rest := SegmentsWalk(x, segments[1..]).result.value;
        assert forall l :: l in [level] + rest <==> l == level || l in rest;
      }
    }
  }

  lemma LevelsSplitBack(levels: seq<string>)
    requires forall l :: l in levels ==> IsTrimmed(l)
    ensures NonEmpty(Split(Join(levels, '/'), '/')) == levels
  {
    forall l | l in levels ensures '/' !in l && l != "" {
      assert IsTrimmed(l);
    }
    hide IsTrimmed;
    if levels == [] {
      FindAbsent("", '/');
      assert Split("", '/') == [""];
      assert NonEmpty([""]) == NonEmpty([""][1..]) == [];
    } else {
      SplitJoin(levels, '/');
      NonEmptyAll(levels);
    }
  }

  ghost predicate SafeLevel(u: Unicode, config: Config, level: string) {
    IsTrimmed(level) && !DeviceBeforeDot(u, level) && Utf8Length(level) <= config.maxSegmentBytes
  }

  /** What the assembled-path check lets through, level by level. */
  ghost predicate Admissible(u: Unicode, config: Config, level: string) {
    && level != "." && level != ".."
    && (level != "" ==> !DeviceBeforeDot(u, level) && Utf8Length(level) <= config.maxSegmentBytes)
  }

  lemma SegmentAccepted(u: Unicode, config: Config, total: nat, level: string)
    ensures SegmentFault(u, config, total, level).None? <==> Admissible(u, config, level)
  {
    NamesDeviceMeans(u, level);
    hide NamesDevice, DeviceBeforeDot, Utf8Length;
  }

  lemma {:induction false} SegmentsAccepted(u: Unicode, config: Config, total: nat, segments: seq<string>)
    ensures SegmentsFault(u, config, total, segments).None? <==> forall l :: l in segments ==> Admissible(u, config, l)
  {
    hide SegmentFault, Admissible;
    if segments != [] {
      SegmentAccepted(u, config, total, segments[0]);
      SegmentsAccepted(u, config, total, segments[1..]);
      assert forall l :: l in segments <==> l == segments[0] || l in segments[1..];
    }
  }

  /** The assembled-path check passes if and only if every level is admissible and the path fits. */
  lemma AssembledPathAccepted(u: Unicode, config: Config, path: string)
    ensures AssembledFault(u, config, path).None?
       <==> |path| <= config.maxPathChars && forall l :: l in Split(path, '/') ==> Admissible(u, config, l)
  {
    SegmentsAccepted(u, config, |path|, Split(path, '/'));
  }

  /** Why a level is refused, checked in this order. */
  ghost predicate LevelFault(u: Unicode, config: Config, total: nat, level: string, e: ResolveError) {
    if level == "." || level == ".." then e == ResolveError.PathTraversal(level)
    else if level != "" && DeviceBeforeDot(u, level) then e == ResolveError.ReservedName(level)
    else level != "" && Utf8Length(level) > config.maxSegmentBytes && e == PathTooLong(total, Utf8Length(level))
  }

  /** The fault of the first refused level. */
  ghost predicate FirstFault(u: Unicode, config: Config, total: nat, levels: seq<string>, e: ResolveError) {
    exists i :: 0 <= i < |levels| && FaultAt(u, config, total, levels, e, i)
  }

  ghost predicate FaultAt(u: Unicode, config: Config, total: nat, levels: seq<string>, e: ResolveError, i: int)
    requires 0 <= i < |levels|
  {
    LevelFault(u, config, total, levels[i], e) && forall j :: 0 <= j < i ==> Admissible(u, config, levels[j])
  }

  lemma LevelFaultMeans(u: Unicode, config: Config, total: nat, level: string, e: ResolveError)
    ensures SegmentFault(u, config, total, level) == Some(e) <==> LevelFault(u, config, total, level, e)
  {
    NamesDeviceMeans(u, level);
    hide NamesDevice, DeviceBeforeDot, Utf8Length;
  }

  lemma FirstFaultStep(u: Unicode, config: Config, total: nat, levels: seq<string>, e: ResolveError)
    requires levels != []
    ensures FirstFault(u, config, total, levels, e)
       <==> || LevelFault(u, config, total, levels[0], e)
            || (Admissible(u, config, levels[0]) && FirstFault(u, config, total, levels[1..], e))
  {
    hide LevelFault, Admissible;
    var rest := levels[1..];
    forall i | 0 <= i < |rest| && Admissible(u, config, levels[0]) && FaultAt(u, config, total, rest, e, i)
      ensures FaultAt(u, config, total, levels, e, i + 1)
    {
      forall j | 0 <= j < i + 1 ensures Admissible(u, config, levels[j]) {
        assert j > 0 ==> levels[j] == rest[j - 1];
      }
    }
    forall i | 0 < i < |levels| && FaultAt(u, config, total, levels, e, i)
      ensures FaultAt(u, config, total, rest, e, i - 1) && Admissible(u, config, levels[0])
    {
      assert forall j :: 0 <= j < i - 1 ==> rest[j] == levels[j + 1];
    }
    if LevelFault(u, config, total, levels[0], e) {
      assert FaultAt(u, config, total, levels, e, 0);
    }
  }

  lemma {:induction false} SegmentsFaultMeans(u: Unicode, config: Config, total: nat, levels: seq<string>,
                                              e: ResolveError)
    ensures SegmentsFault(u, config, total, levels) == Some(e) <==> FirstFault(u, config, total, levels, e)
  {
    hide SegmentFault, LevelFault, Admissible, FaultAt;
    if levels != [] {
      SegmentsFaultMeans(u, config, total, levels[1..], e);
      LevelFaultMeans(u, config, total, levels[0], e);
      SegmentAccepted(u, config, total, levels[0]);
      FirstFaultStep(u, config, total, levels, e);
      if SegmentFault(u, config, total, levels[0]).Some? {
        LevelFaultMeans(u, config, total, levels[0], SegmentFault(u, config, total, levels[0]).value);
      }
    }
  }

  /** The assembled-path check reports the first refused level, and the total length only when none is. */
  lemma AssembledFaultMeans(u: Unicode, config: Config, path: string, e: ResolveError)
    ensures AssembledFault(u, config, path) == Some(e)
       <==> || FirstFault(u, config, |path|, Split(path, '/'), e)
            || (|path| > config.maxPathChars && e == PathTooLong(|path|, 0)
                && forall l :: l in Split(path, '/') ==> Admissible(u, config, l))
  {
    hide FirstFault, Admissible, Split, SegmentsFault;
    SegmentsFaultMeans(u, config, |path|, Split(path, '/'), e);
    SegmentsAccepted(u, config, |path|, Split(path, '/'));
    if SegmentsFault(u, config, |path|, Split(path, '/')).Some? {
      SegmentsFaultMeans(u, config, |path|, Split(path, '/'), SegmentsFault(u, config, |path|, Split(path, '/')).value);
    }
  }

  /** No level of a path that either resolver lets through names a device before its first dot. */
  lemma ResolvedLevelsNameNoDevice(x: Context, config: Config, outcome: Result<ResolveResult, ResolveError>,
                                   parts: seq<PatternPart>, pattern: string, l: string, k: nat)
    requires outcome == PartsOutcome(x, config, parts) || outcome == PatternOutcome(x, config, pattern)
    requires outcome.Ok? && l in Split(outcome.value.relativePath, '/') && l != "" && BeforeDot(l, k)
    ensures x.unicode.upper(l[..k]) !in DEVICE_NAMES
  {
    hide PartsWalk, PatternWalk, PartsFault, PartsWarnings, DEVICE_NAMES, Split, AssembledFault, Utf8Length, Join;
    AssembledPathAccepted(x.unicode, config, outcome.value.relativePath);
    assert Admissible(x.unicode, config, l);
  }

  /** A resolved path has exactly one level per non-empty segment of its pattern, and each level is a safe
      one: not empty, free of reserved characters, trimmed, no device name, and within the caps. */
  lemma ResolvedLevelsAreSafe(x: Context, config: Config, pattern: string)
    requires SafeFallbacks(x.registry) && PatternOutcome(x, config, pattern).Ok?
    ensures var path := PatternOutcome(x, config, pattern).value.relativePath;
            var levels := NonEmpty(Split(path, '/'));
            && |levels| == |NonEmpty(Split(pattern, '/'))|
            && (forall l :: l in levels ==> SafeLevel(x.unicode, config, l))
            && path == Join(levels, '/') && |path| <= config.maxPathChars
  {
    hide SegmentsWalk, SafeFallbacks, IsTrimmed, DeviceBeforeDot, Utf8Length;
    var segments := Split(pattern, '/');
    var levels := SegmentsWalk(x, segments).result.value;
    var path := Join(levels, '/');
    LevelsAreTrimmed(x, segments);
    LevelsSplitBack(levels);
    NonEmptyMeans(Split(path, '/'));
    AssembledPathAccepted(x.unicode, config, path);
    forall l | l in levels ensures SafeLevel(x.unicode, config, l) {
      assert Admissible(x.unicode, config, l);
    }
  }

  /** No two renderings of a pattern run together: bundles that resolve a pattern to the same path resolve
      each of its levels to the same text. */
  lemma SamePathSameLevels(x: Context, y: Context, config: Config, pattern: string)
    requires SafeFallbacks(x.registry) && x.unicode == y.unicode && x.registry == y.registry
    requires PatternOutcome(x, config, pattern).Ok? && PatternOutcome(y, config, pattern).Ok?
    requires PatternOutcome(x, config, pattern).value.relativePath
          == PatternOutcome(y, config, pattern).value.relativePath
    ensures PatternWalk(x, pattern).result == PatternWalk(y, pattern).result
  {
    hide SegmentsWalk, SafeFallbacks, IsTrimmed, Split, Join, AssembledFault;
    LevelsAreTrimmed(x, Split(pattern, '/'));
    LevelsAreTrimmed(y, Split(pattern, '/'));
    LevelsSplitBack(PatternWalk(x, pattern).result.value);
    LevelsSplitBack(PatternWalk(y, pattern).result.value);
  }

  /** The traversal branch of the assembled-path check is never taken for a pattern string. */
  lemma AssembledPathNeverTraverses(x: Context, config: Config, pattern: string, s: string)
    requires SafeFallbacks(x.registry) && PatternWalk(x, pattern).result.Ok?
    ensures AssembledFault(x.unicode, config, Join(PatternWalk(x, pattern).result.value, '/'))
         != Some(ResolveError.PathTraversal(s))
  {
    var levels := PatternWalk(x, pattern).result.value;
    var segments := Split(Join(levels, '/'), '/');
    LevelsAreTrimmed(x, Split(pattern, '/'));
    LevelsSplitBack(levels);
    NonEmptyMeans(segments);
    forall l | l in segments ensures !IsTraversal(l) {
      if l != "" {
        assert l in levels && IsTrimmed(l);
      }
    }
    NoTraversalFault(x.unicode, config, |Join(levels, '/')|, segments, s);
  }

  lemma {:induction false} NoTraversalFault(u: Unicode, config: Config, total: nat, segments: seq<string>, s: string)
    requires forall l :: l in segments ==> !IsTraversal(l)
    ensures SegmentsFault(u, config, total, segments) != Some(ResolveError.PathTraversal(s))
  {
    if segments != [] {
      assert segments[0] in segments;
      assert forall l :: l in segments[1..] ==> l in segments;
      NoTraversalFault(u, config, total, segments[1..], s);
    }
  }

  // ----- Leading and trailing slashes ---------------------------------------

  lemma {:induction false} JoinEnds(levels: seq<string>)
    requires levels != [] && forall l :: l in levels ==> IsTrimmed(l)
    ensures var path := Join(levels, '/'); path != "" && path[0] != '/' && path[|path| - 1] != '/'
  {
    assert levels[0] in levels;
    if |levels| > 1 {
      assert forall l :: l in levels[1..] ==> l in levels;
      JoinEnds(levels[1..]);
    }
  }

  /** A path resolved from a pattern string never starts or ends with a slash. */
  lemma PatternPathHasNoOuterSlash(x: Context, config: Config, pattern: string)
    requires SafeFallbacks(x.registry) && PatternOutcome(x, config, pattern).Ok?
    ensures var path := PatternOutcome(x, config, pattern).value.relativePath;
            path == "" || (path[0] != '/' && path[|path| - 1] != '/')
  {
    hide PatternOutcome, SafeFallbacks, DeviceBeforeDot, Utf8Length, Join, Split, IsTrimmed;
    ResolvedLevelsAreSafe(x, config, pattern);
    var path := PatternOutcome(x, config, pattern).value.relativePath;
    var levels := NonEmpty(Split(path, '/'));
    if levels == [] {
      JoinNothing();
    } else {
      forall l | l in levels ensures IsTrimmed(l) {
        assert SafeLevel(x.unicode, config, l);
      }
      JoinEnds(levels);
    }
  }

  lemma JoinNothing()
    ensures Join([], '/') == ""
  {}

  ghost predicate IsSlash(part: PatternPart) {
    part.kind == SEPARATOR && part.value == "/"
  }

  /** A path resolved from a part list starts with a slash if and only if the list does. */
  lemma PartsPathStartsWithSlash(x: Context, config: Config, parts: seq<PatternPart>)
    requires SafeFallbacks(x.registry) && PartsOutcome(x, config, parts).Ok?
    ensures var path := PartsOutcome(x, config, parts).value.relativePath;
            path != "" && (path[0] == '/' <==> IsSlash(parts[0]))
  {
    hide AssembledFault, TokenWalk, SafeFallbacks, PartsWarnings;
    if parts[0].kind == TOKEN {
      TokenIsTrimmed(x, parts[0].value);
      TrimmedStart(TokenWalk(x, parts[0].value).result.value);
    }
  }

  lemma TrimmedStart(s: string)
    requires IsTrimmed(s)
    ensures s != "" && s[0] != '/'
  {}
}
