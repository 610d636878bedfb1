/** Route labels for the HTTP metrics: one bounded vocabulary for every input. */
module Routes {
  import opened GoStrings
  import opened Trimming
  import opened Items

  const UNKNOWN := "unmatched"
  const MAX_ROUTE_BYTES := 128

  // ----- Segments -----

  predicate Alphanumeric(c: char) {
    'a' <= c <= 'z' || 'A' <= c <= 'Z' || '0' <= c <= '9'
  }

  predicate NameByte(c: char) {
    Alphanumeric(c) || c == '_' || c == '-'
  }

  predicate LiteralByte(c: char) {
    Alphanumeric(c) || c == '.' || c == '_' || c == '~' || c == '-'
  }

  predicate HexDigit(c: char) {
    'a' <= c <= 'f' || 'A' <= c <= 'F' || '0' <= c <= '9'
  }

  predicate Placeholder(s: string) {
    s != "" && forall i :: 0 <= i < |s| ==> NameByte(s[i])
  }

  predicate Literal(s: string) {
    s != "" && forall i :: 0 <= i < |s| ==> LiteralByte(s[i])
  }

  predicate AllDigits(s: string) {
    forall i :: 0 <= i < |s| ==> '0' <= s[i] <= '9'
  }

  /** The dashes of a UUID in their places and only dashes and hex digits elsewhere. */
  predicate UuidShaped(s: string) {
    && |s| == 36 && s[8] == '-' && s[13] == '-' && s[18] == '-' && s[23] == '-'
    && forall i :: 0 <= i < |s| ==> s[i] == '-' || HexDigit(s[i])
  }

  /** What a segment becomes in the label, if it may appear there at all. */
  function Canon(segment: string): Option<string> {
    if segment == "" || segment == "." || segment == ".." then None
    else if segment[0] == ':' || segment[0] == '*' then
      if Placeholder(segment[1..]) then Some(segment) else None
    else if segment[0] == '{' && segment[|segment| - 1] == '}' then
      var name := segment[1..|segment| - 1];
      if Placeholder(name) then Some(":" + name) else None
    else if !Literal(segment) || AllDigits(segment) || UuidShaped(segment) then None
    else Some(segment)
  }

  /** A segment of a label: a placeholder, or a literal that is no number, no UUID and no dot path. */
  predicate CanonicalSegment(s: string) {
    (|s| > 1 && (s[0] == ':' || s[0] == '*') && Placeholder(s[1..]))
    || (Literal(s) && s != "." && s != ".." && !AllDigits(s) && !UuidShaped(s))
  }

  /** The two byte classes by their codes. */
  lemma SegmentBytes(c: char)
    ensures var n := c as int;
            NameByte(c) <==> n == 0x2D || 0x30 <= n <= 0x39 || 0x41 <= n <= 0x5A || n == 0x5F || 0x61 <= n <= 0x7A
    ensures var n := c as int;
            LiteralByte(c) <==>
            0x2D <= n <= 0x2E || 0x30 <= n <= 0x39 || 0x41 <= n <= 0x5A || n == 0x5F || 0x61 <= n <= 0x7A || n == 0x7E
    ensures HexDigit(c) <==> 0x30 <= c as int <= 0x39 || 0x41 <= c as int <= 0x46 || 0x61 <= c as int <= 0x66
  {
  }

  /** The segment spells what is shown: a parameter in one of its three notations, or a word that names no object. */
  predicate Spells(segment: string, shown: string, name: string) {
    || (Placeholder(name) && segment == shown && (shown == ":" + name || shown == "*" + name))
    || (Placeholder(name) && segment == "{" + name + "}" && shown == ":" + name)
    || (segment == shown == name && Literal(name) && name != "." && name != ".."
        && !AllDigits(name) && !UuidShaped(name))
  }

  /** A segment is kept exactly when it spells something to show, and then as that. */
  lemma CanonSpells(segment: string, shown: string)
    ensures Canon(segment) == Some(shown) <==> exists name :: Spells(segment, shown, name)
  {
    if Canon(segment) == Some(shown) {
      KeptSpells(segment, shown);
    }
    forall name | Spells(segment, shown, name) ensures Canon(segment) == Some(shown) {
      SpelledIsKept(segment, shown, name);
    }
  }

  lemma KeptSpells(segment: string, shown: string)
    requires Canon(segment) == Some(shown)
    ensures exists name :: Spells(segment, shown, name)
  {
    if segment[0] == ':' || segment[0] == '*' {
      assert segment == [segment[0]] + segment[1..];
      assert Spells(segment, shown, segment[1..]);
    } else if segment[0] == '{' && segment[|segment| - 1] == '}' {
      assert segment == "{" + segment[1..|segment| - 1] + "}";
      assert Spells(segment, shown, segment[1..|segment| - 1]);
    } else {
      assert Spells(segment, shown, segment);
    }
  }

  lemma SpelledIsKept(segment: string, shown: string, name: string)
    requires Spells(segment, shown, name)
    ensures Canon(segment) == Some(shown)
  {
    if segment == "{" + name + "}" {
      assert segment[0] == '{' && segment[|segment| - 1] == '}' && segment[1..|segment| - 1] == name;
    } else if segment == ":" + name || segment == "*" + name {
      assert |segment| == 1 + |name| && segment[0] in ":*" && segment[1..] == name;
    } else {
      assert LiteralByte(segment[0]);
    }
  }

  /** The bytes a segment that is kept can hold. */
  predicate SegmentByte(c: char) {
    Printable(c) && c != '/' && c != '?' && c != '#'
  }

  predicate CleanSegment(s: string) {
    s != "" && forall i :: 0 <= i < |s| ==> SegmentByte(s[i])
  }

  lemma CanonKeepsCleanSegments(s: string)
    requires Canon(s).Some?
    ensures CleanSegment(s) && CanonicalSegment(Canon(s).value) && |Canon(s).value| <= |s|
  {
    if s[0] == ':' || s[0] == '*' {
      assert s == [s[0]] + s[1..];
    } else if s[0] == '{' && s[|s| - 1] == '}' {
      assert s == ['{'] + s[1..|s| - 1] + ['}'];
      assert (":" + s[1..|s| - 1])[1..] == s[1..|s| - 1];
    }
  }

  lemma CanonicalIsFixed(s: string)
    requires CanonicalSegment(s)
    ensures Canon(s) == Some(s)
  {
    if Literal(s) { assert LiteralByte(s[0]); }
  }

  // ----- Splitting and joining -----

  function Split(s: string): (parts: seq<string>)
    ensures |parts| > 0
  {
    if s == "" then [""]
    else
      var rest := Split(s[1..]);
      if s[0] == '/' then [""] + rest else [[s[0]] + rest[0]] + rest[1..]
  }

  function Join(parts: seq<string>): string {
    if parts == [] then ""
    else if |parts| == 1 then parts[0]
    else parts[0] + "/" + Join(parts[1..])
  }

  lemma {:induction false} JoinSplit(s: string)
    ensures Join(Split(s)) == s
  {
    if s == "" {
    } else {
      JoinSplit(s[1..]);
      var rest := Split(s[1..]);
      if s[0] == '/' {
        assert Split(s)[1..] == rest;
      } else {
        assert Split(s)[1..] == rest[1..];
      }
    }
  }

  lemma {:induction false} SplitNoSlash(s: string)
    requires '/' !in s
    ensures Split(s) == [s]
  {
    if s == "" {
    } else {
      SplitNoSlash(s[1..]);
      assert s[0] in s && [s[0]] + s[1..] == s;
    }
  }

  lemma {:induction false} SplitAt(a: string, b: string)
    requires '/' !in a
    ensures Split(a + "/" + b) == [a] + Split(b)
  {
    var s := a + "/" + b;
    if a == "" {
      assert s[1..] == b;
    } else {
      SplitAt(a[1..], b);
      assert s[1..] == a[1..] + "/" + b;
      assert s[0] == a[0] && [a[0]] + a[1..] == a;
      assert ([a[1..]] + Split(b))[1..] == Split(b);
    }
  }

  lemma {:induction false} SplitJoin(parts: seq<string>)
    requires parts != [] && forall i :: 0 <= i < |parts| ==> '/' !in parts[i]
    ensures Split(Join(parts)) == parts
  {
    if |parts| == 1 {
      SplitNoSlash(parts[0]);
    } else {
      SplitJoin(parts[1..]);
      SplitAt(parts[0], Join(parts[1..]));
    }
  }

  // ----- Normalization -----

  predicate HasReserved(s: string) {
    exists i :: 0 <= i < |s| && (s[i] == '?' || s[i] == '#' || s[i] == '\r' || s[i] == '\n' || s[i] == '\t')
  }

  predicate HasDoubleSlash(s: string) {
    exists i :: 0 <= i < |s| - 1 && s[i] == '/' && s[i + 1] == '/'
  }

  /** strings.TrimRight(s, "/") */
  function TrimSlashes(s: string): (r: string)
    ensures r <= s
  {
    if s != "" && s[|s| - 1] == '/' then TrimSlashes(s[..|s| - 1]) else s
  }

  /** strings.TrimPrefix(s, "/") */
  function WithoutRoot(s: string): string {
    if s != "" && s[0] == '/' then s[1..] else s
  }

  predicate AllCanon(raw: seq<string>) {
    forall i :: 0 <= i < |raw| ==> Canon(raw[i]).Some?
  }

  function Canons(raw: seq<string>): (segments: seq<string>)
    requires AllCanon(raw)
    ensures |segments| == |raw| && forall i :: 0 <= i < |raw| ==> Canon(raw[i]) == Some(segments[i])
  {
    seq(|raw|, i requires 0 <= i < |raw| => Canon(raw[i]).value)
  }

  function Segments(route: string): seq<string> {
    Split(WithoutRoot(TrimSlashes(route)))
  }

  predicate Refused(route: string) {
    || route == "" || route == UNKNOWN
    || |route| > MAX_ROUTE_BYTES || !ValidUtf8(route) || route[0] != '/'
    || HasReserved(route) || HasDoubleSlash(route)
  }

  function Normalize(input: string): string {
    LabelOf(TrimSpace(input))
  }

  function LabelOf(route: string): string {
    if Refused(route) then UNKNOWN
    else if route == "/" then route
    else if AllCanon(Segments(route)) then "/" + Join(Canons(Segments(route)))
    else UNKNOWN
  }

  method ValidPlaceholder(value: string) returns (valid: bool)
    ensures valid == Placeholder(value)
  {
    if value == "" { return false; }
    for i := 0 to |value|
      invariant forall j :: 0 <= j < i ==> NameByte(value[j])
    {
      if !NameByte(value[i]) { return false; }
    }
    return true;
  }

  method ValidLiteral(value: string) returns (valid: bool)
    ensures valid == Literal(value)
  {
    for i := 0 to |value|
      invariant forall j :: 0 <= j < i ==> LiteralByte(value[j])
    {
      if !LiteralByte(value[i]) { return false; }
    }
    return value != "";
  }

  method LooksLikeRawSegment(value: string) returns (raw: bool)
    ensures raw == (AllDigits(value) || UuidShaped(value))
  {
    var allDigits, i := true, 0;
    while i < |value| && allDigits
      invariant i <= |value| && allDigits == AllDigits(value[..i])
    {
      assert value[..i + 1] == value[..i] + [value[i]];
      allDigits := '0' <= value[i] <= '9';
      i := i + 1;
    }
    assert value[..|value|] == value;
    if allDigits { return true; }
    if |value| != 36 || value[8] != '-' || value[13] != '-' || value[18] != '-' || value[23] != '-' {
      return false;
    }
    for k := 0 to |value|
      invariant forall j :: 0 <= j < k ==> value[j] == '-' || HexDigit(value[j])
    {
      if value[k] != '-' && !HexDigit(value[k]) { return false; }
    }
    return true;
  }

  /** The loop's switch on one segment. */
  method CanonicalizeSegment(segment: string) returns (result: Option<string>)
    ensures result == Canon(segment)
  {
    if segment == "" || segment == "." || segment == ".." { return None; }
    if segment[0] == ':' || segment[0] == '*' {
      var valid := ValidPlaceholder(segment[1..]);
      return if valid then Some(segment) else None;
    } else if segment[0] == '{' && segment[|segment| - 1] == '}' {
      var name := segment[1..|segment| - 1];
      var valid := ValidPlaceholder(name);
      return if valid then Some(":" + name) else None;
    }
    var literal := ValidLiteral(segment);
    if !literal { return None; }
    var looksRaw := LooksLikeRawSegment(segment);
    return if looksRaw then None else Some(segment);
  }

  method NormalizeRoute(input: string) returns (output: string)
    ensures output == Normalize(input)
  {
    var route := TrimSpace(input);
    if route == "" || route == UNKNOWN { return UNKNOWN; }
    if |route| > MAX_ROUTE_BYTES || !ValidUtf8(route) || route[0] != '/' { return UNKNOWN; }
    if HasReserved(route) || HasDoubleSlash(route) { return UNKNOWN; }
    if route == "/" { return route; }
    output := NormalizeSegments(Segments(route));
  }

  method NormalizeSegments(raw: seq<string>) returns (output: string)
    ensures output == if AllCanon(raw) then "/" + Join(Canons(raw)) else UNKNOWN
  {
    var segments := raw;
    for index := 0 to |raw|
      invariant |segments| == |raw|
      invariant forall i :: 0 <= i < index ==> Canon(raw[i]) == Some(segments[i])
      invariant forall i :: index <= i < |raw| ==> segments[i] == raw[i]
    {
      var canon := CanonicalizeSegment(segments[index]);
      if canon.None? { return UNKNOWN; }
      segments := segments[index := canon.value];
    }
    assert segments == Canons(raw);
    return "/" + Join(segments);
  }

  // ----- What the labels are -----

  /** The vocabulary: the sink label, the root, or a short path of canonical segments. */
  ghost predicate IsLabel(output: string) {
    output == UNKNOWN || output == "/" || exists segments :: IsPath(segments, output)
  }

  ghost predicate IsPath(segments: seq<string>, output: string) {
    && segments != [] && (forall i :: 0 <= i < |segments| ==> CanonicalSegment(segments[i]))
    && output == "/" + Join(segments) && |output| <= MAX_ROUTE_BYTES
  }

  /** Canonical forms are never longer than what they replace. */
  lemma {:induction false} CanonsAreNoLonger(raw: seq<string>)
    requires AllCanon(raw)
    ensures |Join(Canons(raw))| <= |Join(raw)|
  {
    if raw == [] {
    } else {
      CanonKeepsCleanSegments(raw[0]);
      CanonsAreNoLonger(raw[1..]);
      assert Canons(raw)[1..] == Canons(raw[1..]);
    }
  }

  /** Whatever the router reports, the metric gets a label of the vocabulary. */
  lemma EveryResultIsALabel(input: string)
    ensures IsLabel(Normalize(input))
  {
    var route := TrimSpace(input);
    if !Refused(route) && route != "/" && AllCanon(Segments(route)) {
      var raw := Segments(route);
      forall i | 0 <= i < |raw| ensures CanonicalSegment(Canons(raw)[i]) {
        CanonKeepsCleanSegments(raw[i]);
      }
      JoinSplit(WithoutRoot(TrimSlashes(route)));
      CanonsAreNoLonger(raw);
      assert |Join(raw)| <= |route| - 1 by { TrimmedKeepsRoot(route); }
      assert IsPath(Canons(raw), Normalize(input));
    }
  }

  /** Trimming slashes off an accepted route takes at most one, and never the root. */
  lemma TrimmedKeepsRoot(route: string)
    requires |route| > 1 && route[0] == '/' && !HasDoubleSlash(route)
    ensures TrimSlashes(route) == (if route[|route| - 1] == '/' then route[..|route| - 1] else route)
  {
    if route[|route| - 1] == '/' {
      var n := |route| - 2;
      assert route[n + 1] == '/';
    }
  }

  /** Every pattern of keepable segments, with or without a final slash, gets its canonical form. */
  lemma PatternsAreKept(raw: seq<string>, slash: bool)
    requires raw != [] && AllCanon(raw)
    requires |"/" + Join(raw) + (if slash then "/" else "")| <= MAX_ROUTE_BYTES
    ensures Normalize("/" + Join(raw) + (if slash then "/" else "")) == "/" + Join(Canons(raw))
  {
    var route := "/" + Join(raw) + (if slash then "/" else "");
    PatternIsClean(raw, slash);
    assert TrimSpace(route) == route by { PrintableEdges(route); }
    assert !Refused(route) by { CleanRouteIsNotRefused(route); }
    assert Segments(route) == raw by { PatternSegments(raw, slash); }
  }

  lemma PatternIsClean(raw: seq<string>, slash: bool)
    requires raw != [] && AllCanon(raw)
    ensures var route := "/" + Join(raw) + (if slash then "/" else "");
            && |route| > 1 && route[0] == '/' && !HasDoubleSlash(route)
            && forall i :: 0 <= i < |route| ==> PathByte(route[i])
  {
    CleanJoin(raw);
    NoDoubleSlash(Join(raw), slash);
  }

  lemma CleanRouteIsNotRefused(route: string)
    requires 1 < |route| <= MAX_ROUTE_BYTES && route[0] == '/' && !HasDoubleSlash(route)
    requires forall i :: 0 <= i < |route| ==> PathByte(route[i])
    ensures !Refused(route)
  {
    PrintableIsValid(route);
    forall i | 0 <= i < |route| ensures route[i] !in "?#\r\n\t" {
      assert PathByte(route[i]);
    }
    assert !HasReserved(route);
  }

  lemma PatternSegments(raw: seq<string>, slash: bool)
    requires raw != [] && AllCanon(raw)
    ensures Segments("/" + Join(raw) + (if slash then "/" else "")) == raw
  {
    var joined := Join(raw);
    var route := "/" + joined + (if slash then "/" else "");
    CleanJoin(raw);
    NoDoubleSlash(joined, slash);
    TrimmedKeepsRoot(route);
    assert TrimSlashes(route) == "/" + joined;
    assert WithoutRoot("/" + joined) == joined;
    SplitJoin(raw);
  }

  /** And nothing else does: an accepted route is such a pattern. */
  lemma AcceptedIsAPattern(input: string)
    requires Normalize(input) != UNKNOWN && Normalize(input) != "/"
    ensures var raw := Segments(TrimSpace(input));
            && AllCanon(raw) && Normalize(input) == "/" + Join(Canons(raw))
            && (TrimSpace(input) == "/" + Join(raw) || TrimSpace(input) == "/" + Join(raw) + "/")
  {
    RouteIsItsSegments(TrimSpace(input));
  }

  lemma RouteIsItsSegments(route: string)
    requires |route| > 1 && route[0] == '/' && !HasDoubleSlash(route)
    ensures route == "/" + Join(Segments(route)) || route == "/" + Join(Segments(route)) + "/"
  {
    TrimmedKeepsRoot(route);
    var trimmed := TrimSlashes(route);
    JoinSplit(WithoutRoot(trimmed));
    assert trimmed == "/" + Join(Segments(route));
    assert route == trimmed || route == trimmed + "/";
  }

  /** The route pattern `v`: its segments, with or without a final slash. */
  predicate IsPattern(raw: seq<string>, slash: bool, v: string) {
    raw != [] && AllCanon(raw) && |v| <= 128 && v == "/" + Join(raw) + (if slash then "/" else "")
  }

  /**
   * Normalization exactly: white space around the route aside, the root stays,
   * a pattern of keepable segments gets their labels, and all else is unmatched.
   */
  lemma NormalizesExactly(input: string, v: string)
    requires Trims(input, v)
    ensures Normalize(input) == "/" <==> v == "/"
    ensures forall raw, slash :: IsPattern(raw, slash, v) ==> Normalize(input) == "/" + Join(Canons(raw))
    ensures v != "/" && (forall raw, slash :: !IsPattern(raw, slash, v)) ==> Normalize(input) == "unmatched"
  {
    TrimsIsFixed(input, v);
    SpaceAroundIsIgnored(input, v);
    NormalizesTrimmed(v);
  }

  lemma SpaceAroundIsIgnored(input: string, v: string)
    requires v == TrimSpace(input) == TrimSpace(v)
    ensures Normalize(input) == Normalize(v)
  {
  }

  lemma NormalizesTrimmed(v: string)
    requires TrimSpace(v) == v
    ensures Normalize(v) == "/" <==> v == "/"
    ensures forall raw, slash :: IsPattern(raw, slash, v) ==> Normalize(v) == "/" + Join(Canons(raw))
    ensures v != "/" && (forall raw, slash :: !IsPattern(raw, slash, v)) ==> Normalize(v) == UNKNOWN
  {
    forall raw, slash | IsPattern(raw, slash, v) ensures Normalize(v) == "/" + Join(Canons(raw)) {
      PatternsAreKept(raw, slash);
    }
    if v == "/" {
      RootIsKept();
    } else if Normalize(v) != UNKNOWN {
      KeptIsPattern(v);
    }
  }

  lemma RootIsKept()
    ensures Normalize("/") == "/"
  {
    PrintableEdges("/");
    PrintableIsValid("/");
  }

  lemma KeptIsPattern(v: string)
    requires TrimSpace(v) == v != "/" && Normalize(v) != UNKNOWN
    ensures Normalize(v) != "/" && exists raw, slash :: IsPattern(raw, slash, v)
  {
    var raw := Segments(v);
    RouteIsItsSegments(v);
    JoinedLabelsAreNotRoot(raw);
    assert IsPattern(raw, false, v) || IsPattern(raw, true, v);
  }

  lemma JoinedLabelsAreNotRoot(raw: seq<string>)
    requires raw != [] && AllCanon(raw)
    ensures "/" + Join(Canons(raw)) != "/"
  {
    CanonKeepsCleanSegments(raw[0]);
    assert Canons(raw)[0] != "";
  }

  /** Every label of the vocabulary is its own normal form, so the vocabulary is exactly the image. */
  lemma LabelsAreFixed(output: string)
    requires IsLabel(output)
    ensures Normalize(output) == output
  {
    if output == UNKNOWN {
      PrintableEdges(output);
    } else if output == "/" {
      PrintableEdges(output);
      PrintableIsValid(output);
    } else {
      var segments :| IsPath(segments, output);
      forall i | 0 <= i < |segments| ensures Canon(segments[i]) == Some(segments[i]) {
        CanonicalIsFixed(segments[i]);
      }
      assert Canons(segments) == segments;
      PatternsAreKept(segments, false);
      assert "/" + Join(segments) + "" == output;
    }
  }

  /** Normalizing a label again changes nothing. */
  lemma NormalizeIsIdempotent(input: string)
    ensures Normalize(Normalize(input)) == Normalize(input)
  {
    EveryResultIsALabel(input);
    LabelsAreFixed(Normalize(input));
  }

  // ----- Bytes of a joined path -----

  predicate PathByte(c: char) {
    SegmentByte(c) || c == '/'
  }

  lemma {:induction false} CleanJoin(raw: seq<string>)
    requires raw != [] && AllCanon(raw)
    ensures forall i :: 0 <= i < |raw| ==> '/' !in raw[i]
    ensures Join(raw) != "" && Join(raw)[0] != '/' && Join(raw)[|Join(raw)| - 1] != '/'
    ensures forall i :: 0 <= i < |Join(raw)| ==> PathByte(Join(raw)[i])
    ensures !HasDoubleSlash(Join(raw))
  {
    CanonKeepsCleanSegments(raw[0]);
    assert SegmentByte(raw[0][0]) && SegmentByte(raw[0][|raw[0]| - 1]);
    if |raw| == 1 {
      assert raw == [raw[0]];
    } else {
      CleanJoin(raw[1..]);
      forall i | 0 <= i < |raw| ensures '/' !in raw[i] {
        if i > 0 { assert raw[i] == raw[1..][i - 1]; }
      }
      var a, b := raw[0], Join(raw[1..]);
      var s := a + "/" + b;
      forall i | 0 <= i < |s| - 1 ensures !(s[i] == '/' && s[i + 1] == '/') {
        if i > |a| { assert s[i] == b[i - |a| - 1] && s[i + 1] == b[i - |a|]; }
      }
    }
  }

  lemma NoDoubleSlash(s: string, slash: bool)
    requires s != "" && s[0] != '/' && s[|s| - 1] != '/' && !HasDoubleSlash(s)
    ensures !HasDoubleSlash("/" + s + (if slash then "/" else ""))
  {
    var route := "/" + s + (if slash then "/" else "");
    forall i | 0 <= i < |route| - 1 ensures !(route[i] == '/' && route[i + 1] == '/') {
      if 0 < i < |s| { assert route[i] == s[i - 1] && route[i + 1] == s[i - 1 + 1]; }
    }
  }

  lemma {:induction false} PrintableIsValid(s: string)
    requires forall i :: 0 <= i < |s| ==> Printable(s[i])
    ensures ValidUtf8(s)
  {
    if s == "" {
    } else {
      PrintableIsValid(s[1..]);
    }
  }
}
