/** Sanitizing one path segment. Strings are sequences of Unicode code points. */
module SafeFilename {

  /** The Unicode tables, as parameters: NFC, case mappings, and the script test of step 5 (true when a
      value mixes scripts beyond the admitted Latin/Greek pair). */
  datatype Unicode = Unicode(
    nfc: string -> string,
    upper: string -> string,
    lower: string -> string,
    mixesScripts: string -> bool)

  predicate IsAscii(s: string) {
    forall i :: 0 <= i < |s| ==> s[i] as int < 0x80
  }

  function AsciiUpperChar(c: char): char {
    if 'a' <= c <= 'z' then c - 'a' + 'A' else c
  }

  function AsciiUpper(s: string): string {
    seq(|s|, i requires 0 <= i < |s| => AsciiUpperChar(s[i]))
  }

  /** What the tables do on ASCII text. */
  ghost predicate AsciiLaws(u: Unicode) {
    forall s :: IsAscii(s) ==> u.nfc(s) == s && u.upper(s) == AsciiUpper(s)
  }

  datatype SanitizeError =
    | PathTraversal(segment: string)
    | ReservedName(segment: string)
    | UnicodeConfusable(token: string, value: string)
    | EmptyAfterSanitize(token: string, value: string)

  datatype Result<T, E> = Ok(value: T) | Err(error: E)

  // ----- Step 1 -------------------------------------------------------------

  predicate IsDisallowed(c: char) {
    var cp := c as int;
    || cp < 0x20
    || 0x80 <= cp <= 0x9F
    || cp == 0xAD
    || 0x200B <= cp <= 0x200F
    || 0x2028 <= cp <= 0x202E
    || 0x2060 <= cp <= 0x206F
    || 0xFE00 <= cp <= 0xFE0F
    || cp == 0xFEFF
    || 0xFFF9 <= cp <= 0xFFFB
  }

  function Strip(s: string): string {
    if s == "" then "" else (if IsDisallowed(s[0]) then "" else [s[0]]) + Strip(s[1..])
  }

  function NormalizeAndStrip(u: Unicode, s: string): string {
    Strip(u.nfc(s))
  }

  // ----- Step 2 -------------------------------------------------------------

  predicate IsReservedChar(c: char) {
    c == '/' || c == '\\' || c == ':' || c == '?' || c == '*' || c == '"' || c == '<' || c == '>' || c == '|'
  }

  /** The Unicode White_Space property. */
  predicate IsWhitespace(c: char) {
    var cp := c as int;
    || 0x09 <= cp <= 0x0D || cp == 0x20 || cp == 0x85 || cp == 0xA0 || cp == 0x1680
    || 0x2000 <= cp <= 0x200A || cp == 0x2028 || cp == 0x2029 || cp == 0x202F || cp == 0x205F || cp == 0x3000
  }

  predicate Trims(c: char) {
    c == '.' || IsWhitespace(c)
  }

  function Substitute(s: string): string {
    seq(|s|, i requires 0 <= i < |s| => if IsReservedChar(s[i]) then '_' else s[i])
  }

  function TrimLeft(s: string): string {
    if s != "" && Trims(s[0]) then TrimLeft(s[1..]) else s
  }

  function TrimRight(s: string): string {
    if s != "" && Trims(s[|s| - 1]) then TrimRight(s[..|s| - 1]) else s
  }

  function SubstituteReserved(s: string): string {
    TrimRight(TrimLeft(Substitute(s)))
  }

  // ----- Steps 3 to 5 -------------------------------------------------------

  predicate IsTraversal(s: string) {
    s == "." || s == ".."
  }

  const DEVICE_NAMES: set<string> := {
    "CON", "PRN", "AUX", "NUL", "COM1", "COM2", "COM3", "COM4", "COM5", "COM6", "COM7", "COM8", "COM9",
    "LPT1", "LPT2", "LPT3", "LPT4", "LPT5", "LPT6", "LPT7", "LPT8", "LPT9" }

  /** The text before the first dot. */
  function Stem(s: string): string {
    if s == "" || s[0] == '.' then "" else [s[0]] + Stem(s[1..])
  }

  predicate NamesDevice(u: Unicode, s: string) {
    u.upper(Stem(s)) in DEVICE_NAMES
  }

  predicate Confusable(u: Unicode, s: string) {
    !IsAscii(s) && u.mixesScripts(s)
  }

  // ----- The pipeline -------------------------------------------------------

  /** `sanitize_token_value`. */
  function Sanitize(u: Unicode, token: string, raw: string): Result<string, SanitizeError> {
    var normal := NormalizeAndStrip(u, raw);
    if IsTraversal(normal) then Err(PathTraversal(normal))
    else
      var s := SubstituteReserved(normal);
      if s == "" then Err(EmptyAfterSanitize(token, raw))
      else if NamesDevice(u, s) then Err(ReservedName(s))
      else if Confusable(u, s) then Err(UnicodeConfusable(token, s))
      else Ok(s)
  }

  /** A non-empty text without reserved characters, free of dots and whitespace at both ends. */
  predicate IsTrimmed(s: string) {
    && s != ""
    && !Trims(s[0]) && !Trims(s[|s| - 1])
    && forall i :: 0 <= i < |s| ==> !IsReservedChar(s[i])
  }

  lemma {:induction false} TrimLeftIsSuffix(s: string)
    ensures |TrimLeft(s)| <= |s| && TrimLeft(s) == s[|s| - |TrimLeft(s)|..]
    ensures TrimLeft(s) != "" ==> !Trims(TrimLeft(s)[0])
  {
    if s != "" && Trims(s[0]) {
      TrimLeftIsSuffix(s[1..]);
    }
  }

  lemma {:induction false} TrimRightIsPrefix(s: string)
    ensures TrimRight(s) <= s
    ensures TrimRight(s) != "" ==> !Trims(TrimRight(s)[|TrimRight(s)| - 1])
  {
    if s != "" && Trims(s[|s| - 1]) {
      TrimRightIsPrefix(s[..|s| - 1]);
    }
  }

  lemma SubstituteReservedTrims(s: string)
    ensures SubstituteReserved(s) == "" || IsTrimmed(SubstituteReserved(s))
  {
    var a := Substitute(s);
    var b := TrimLeft(a);
    TrimLeftIsSuffix(a);
    TrimRightIsPrefix(b);
    forall i | 0 <= i < |TrimRight(b)| ensures !IsReservedChar(TrimRight(b)[i]) {
      assert TrimRight(b)[i] == b[i] == a[|a| - |b| + i];
    }
  }

  lemma TrimmedIsFixed(s: string)
    requires IsTrimmed(s)
    ensures SubstituteReserved(s) == s
  {
    assert Substitute(s) == s;
  }

  /** Step 2 is idempotent. */
  lemma SubstituteReservedIdempotent(s: string)
    ensures SubstituteReserved(SubstituteReserved(s)) == SubstituteReserved(s)
  {
    SubstituteReservedTrims(s);
    if SubstituteReserved(s) == "" {
      assert Substitute("") == "";
    } else {
      TrimmedIsFixed(SubstituteReserved(s));
    }
  }

  /** A sanitized value is one usable segment: never empty, without a separator or another reserved
      character, trimmed, and not a device name. */
  lemma SanitizedIsOneSegment(u: Unicode, token: string, raw: string)
    requires Sanitize(u, token, raw).Ok?
    ensures var s := Sanitize(u, token, raw).value;
            IsTrimmed(s) && !IsTraversal(s) && !NamesDevice(u, s) && !Confusable(u, s)
  {
    SubstituteReservedTrims(NormalizeAndStrip(u, raw));
  }

  // ----- What each step does, character by character -------------------------

  /** Step 1 drops the disallowed characters and keeps all others in order. */
  lemma {:induction false} StripDrops(a: string, b: string)
    ensures Strip(a + b) == Strip(a) + Strip(b)
    ensures |a| == 1 ==> Strip(a) == if IsDisallowed(a[0]) then "" else a
  {
    if a == "" {
      assert a + b == b;
    } else {
      assert (a + b)[1..] == a[1..] + b;
      StripDrops(a[1..], b);
      if |a| == 1 {
        assert a == [a[0]] && a[1..] == "";
      }
    }
  }

  const RESERVED: set<char> := {'/', '\\', ':', '?', '*', '"', '<', '>', '|'}

  function Underscored(c: char): char {
    if c in RESERVED then '_' else c
  }

  /** Step 2 puts an underscore for each reserved character and cuts off dots and whitespace at both ends,
      and nothing else. */
  lemma SubstituteReservedMeans(t: string) returns (from: nat)
    ensures var s := SubstituteReserved(t);
            && from + |s| <= |t|
            && (forall i :: 0 <= i < |s| ==> s[i] == Underscored(t[from + i]))
            && (forall i :: 0 <= i < from || from + |s| <= i < |t| ==> t[i] == '.' || IsWhitespace(t[i]))
            && (s != "" ==> s[0] != '.' && !IsWhitespace(s[0]) && s[|s| - 1] != '.' && !IsWhitespace(s[|s| - 1]))
  {
    hide IsWhitespace, Underscored, IsReservedChar;
    var a := Substitute(t);
    SubstituteMeans(t);
    from := TrimCuts(a);
    SubstituteReservedTrims(t);
    var s := SubstituteReserved(t);
    assert forall i :: 0 <= i < |s| ==> s[i] == a[from..from + |s|][i];
  }

  lemma SubstituteMeans(t: string)
    ensures |Substitute(t)| == |t|
    ensures forall i :: 0 <= i < |t| ==> Substitute(t)[i] == Underscored(t[i])
    ensures forall i :: 0 <= i < |t| && Trims(Substitute(t)[i]) ==> t[i] == '.' || IsWhitespace(t[i])
  {
    forall i | 0 <= i < |t| ensures Substitute(t)[i] == Underscored(t[i]) {
      assert IsReservedChar(t[i]) <==> t[i] in RESERVED;
    }
  }

  lemma TrimCuts(a: string) returns (from: nat)
    ensures var s := TrimRight(TrimLeft(a));
            && from + |s| <= |a| && s == a[from..from + |s|]
            && forall i :: 0 <= i < from || from + |s| <= i < |a| ==> Trims(a[i])
  {
    hide Trims;
    var b := TrimLeft(a);
    var s := TrimRight(b);
    TrimLeftCuts(a);
    TrimLeftIsSuffix(a);
    TrimRightCuts(b);
    TrimRightIsPrefix(b);
    from := |a| - |b|;
    assert forall i :: 0 <= i < |b| ==> b[i] == a[from + i];
    forall i | from + |s| <= i < |a| ensures Trims(a[i]) {
      assert a[i] == b[i - from];
    }
  }

  lemma {:induction false} TrimLeftCuts(s: string)
    ensures |TrimLeft(s)| <= |s| && forall i :: 0 <= i < |s| - |TrimLeft(s)| ==> Trims(s[i])
  {
    if s != "" && Trims(s[0]) {
      TrimLeftCuts(s[1..]);
      forall i | 0 <= i < |s| - |TrimLeft(s)| ensures Trims(s[i]) {
        if i > 0 {
          assert s[i] == s[1..][i - 1];
        }
      }
    }
  }

  lemma {:induction false} TrimRightCuts(s: string)
    ensures |TrimRight(s)| <= |s| && forall i :: |TrimRight(s)| <= i < |s| ==> Trims(s[i])
  {
    if s != "" && Trims(s[|s| - 1]) {
      TrimRightCuts(s[..|s| - 1]);
    }
  }

  // ----- Device names -------------------------------------------------------

  /** The first `k` characters are what stands before the first dot, or all there is. */
  ghost predicate BeforeDot(s: string, k: nat) {
    k <= |s| && '.' !in s[..k] && (k == |s| || s[k] == '.')
  }

  /** What stands before the first dot is a device name, in any case. */
  ghost predicate DeviceBeforeDot(u: Unicode, s: string) {
    exists k: nat :: BeforeDot(s, k) && u.upper(s[..k]) in DEVICE_NAMES
  }

  lemma {:induction false} StemIsBeforeDot(s: string, k: nat)
    requires BeforeDot(s, k)
    ensures Stem(s) == s[..k]
  {
    if k > 0 {
      assert s[0] == s[..k][0];
      assert s[1..][..k - 1] == s[..k][1..];
      StemIsBeforeDot(s[1..], k - 1);
      assert s[..k] == [s[0]] + s[1..][..k - 1];
    }
  }

  lemma {:induction false} DotExists(s: string) returns (k: nat)
    ensures BeforeDot(s, k)
  {
    if s == "" || s[0] == '.' {
      k := 0;
    } else {
      k := DotExists(s[1..]);
      assert s[..k + 1] == [s[0]] + s[1..][..k];
      k := k + 1;
    }
  }

  /** The reserved-name test looks at exactly what stands before the first dot. */
  lemma NamesDeviceMeans(u: Unicode, s: string)
    ensures NamesDevice(u, s) <==> DeviceBeforeDot(u, s)
  {
    var k := DotExists(s);
    StemIsBeforeDot(s, k);
    forall j: nat | BeforeDot(s, j) ensures s[..j] == s[..k] {
      StemIsBeforeDot(s, j);
    }
  }

  /** No sanitized value names a device before its first dot. */
  lemma SanitizedNamesNoDevice(u: Unicode, token: string, raw: string, k: nat)
    requires Sanitize(u, token, raw).Ok? && BeforeDot(Sanitize(u, token, raw).value, k)
    ensures u.upper(Sanitize(u, token, raw).value[..k]) !in DEVICE_NAMES
  {
    hide NamesDevice, DEVICE_NAMES;
    var s := Sanitize(u, token, raw).value;
    SanitizedIsOneSegment(u, token, raw);
    NamesDeviceMeans(u, s);
  }

  /** What the pipeline answers, case by case: the whole cleaned value is a traversal; nothing is left of it;
      it names a device before its first dot; it mixes scripts; and otherwise the value itself. */
  lemma SanitizeMeans(u: Unicode, token: string, raw: string)
    ensures var normal := Strip(u.nfc(raw));
            var s := SubstituteReserved(normal);
            && (normal == "." || normal == ".." <==> Sanitize(u, token, raw) == Err(PathTraversal(normal)))
            && (normal != "." && normal != ".." ==>
                  && (s == "" <==> Sanitize(u, token, raw) == Err(EmptyAfterSanitize(token, raw)))
                  && (s != "" && DeviceBeforeDot(u, s) <==> Sanitize(u, token, raw) == Err(ReservedName(s)))
                  && (s != "" && !DeviceBeforeDot(u, s) && !IsAscii(s) && u.mixesScripts(s)
                      <==> Sanitize(u, token, raw) == Err(UnicodeConfusable(token, s)))
                  && (s != "" && !DeviceBeforeDot(u, s) && (IsAscii(s) || !u.mixesScripts(s))
                      <==> Sanitize(u, token, raw) == Ok(s)))
  {
    hide NamesDevice, DeviceBeforeDot, SubstituteReserved, Strip, IsAscii;
    NamesDeviceMeans(u, SubstituteReserved(Strip(u.nfc(raw))));
  }

  /** A clean ASCII value that names a device before its first dot is refused. */
  lemma DeviceNamesAreRefused(u: Unicode, token: string, s: string, k: nat)
    requires AsciiLaws(u) && IsAscii(s) && IsTrimmed(s) && forall i :: 0 <= i < |s| ==> !IsDisallowed(s[i])
    requires BeforeDot(s, k) && AsciiUpper(s[..k]) in DEVICE_NAMES
    ensures Sanitize(u, token, s) == Err(ReservedName(s))
  {
    assert u.nfc(s) == s && u.upper(s[..k]) == AsciiUpper(s[..k]) by {
      assert IsAscii(s[..k]);
    }
    hide DEVICE_NAMES, NamesDevice, SubstituteReserved, IsDisallowed, IsReservedChar;
    StripKeeps(s);
    TrimmedIsFixed(s);
    NamesDeviceMeans(u, s);
    NotATraversal(s);
    assert DeviceBeforeDot(u, s);
  }

  lemma NotATraversal(s: string)
    requires IsTrimmed(s)
    ensures !IsTraversal(s) && s != ""
  {}

  lemma {:induction false} StripKeeps(s: string)
    requires forall i :: 0 <= i < |s| ==> !IsDisallowed(s[i])
    ensures Strip(s) == s
  {
    if s != "" {
      StripKeeps(s[1..]);
    }
  }

  /** An ASCII value without control characters that is trimmed and no device name passes unchanged;
      in particular an ASCII result is a fixed point of the pipeline. */
  lemma CleanAsciiPasses(u: Unicode, token: string, s: string)
    requires AsciiLaws(u) && IsAscii(s) && IsTrimmed(s) && !NamesDevice(u, s)
    requires forall i :: 0 <= i < |s| ==> !IsDisallowed(s[i])
    ensures Sanitize(u, token, s) == Ok(s)
  {
    StripKeeps(s);
    TrimmedIsFixed(s);
  }

  lemma {:induction false} StripClean(s: string)
    ensures forall i :: 0 <= i < |Strip(s)| ==> !IsDisallowed(Strip(s)[i])
  {
    if s != "" {
      StripClean(s[1..]);
    }
  }

  lemma SubstituteReservedClean(s: string)
    requires forall i :: 0 <= i < |s| ==> !IsDisallowed(s[i])
    ensures forall i :: 0 <= i < |SubstituteReserved(s)| ==> !IsDisallowed(SubstituteReserved(s)[i])
  {
    var a := Substitute(s);
    var b := TrimLeft(a);
    TrimLeftIsSuffix(a);
    TrimRightIsPrefix(b);
    forall i | 0 <= i < |TrimRight(b)| ensures !IsDisallowed(TrimRight(b)[i]) {
      assert TrimRight(b)[i] == b[i] == a[|a| - |b| + i];
    }
  }

  /** Sanitizing an ASCII result again changes nothing. */
  lemma AsciiResultIsFixed(u: Unicode, token: string, raw: string)
    requires AsciiLaws(u) && Sanitize(u, token, raw).Ok? && IsAscii(Sanitize(u, token, raw).value)
    ensures Sanitize(u, token, Sanitize(u, token, raw).value) == Sanitize(u, token, raw)
  {
    SanitizedIsOneSegment(u, token, raw);
    StripClean(u.nfc(raw));
    SubstituteReservedClean(NormalizeAndStrip(u, raw));
    CleanAsciiPasses(u, token, Sanitize(u, token, raw).value);
  }
}
