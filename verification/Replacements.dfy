/** The bootstrap tool's text rewriting: all replacements in one pass over the original. */
module Replacements {
  import opened Items
  import opened GoStrings
  import opened Lexicographic

  datatype Replacement = Replacement(pattern: string, text: string)

  // ----- The rules a list of replacements stands for -----

  /** Entries without a pattern or without an effect are dropped. */
  predicate Effective(r: Replacement) {
    r.pattern != "" && r.pattern != r.text
  }

  /** Each pattern with the text of its first effective entry. */
  function Rules(entries: seq<Replacement>): (rules: map<string, string>)
    ensures "" !in rules
  {
    if entries == [] then map[]
    else
      var rules, last := Rules(entries[..|entries| - 1]), entries[|entries| - 1];
      if Effective(last) && last.pattern !in rules then rules[last.pattern := last.text] else rules
  }

  /** Entry `i` is the first one that replaces pattern `p`, and replaces it by `t`. */
  predicate ReplacesFirst(entries: seq<Replacement>, i: nat, p: string, t: string)
    requires i < |entries|
  {
    && p != "" && t != p && entries[i] == Replacement(p, t)
    && forall j :: 0 <= j < i && entries[j].pattern == p ==> entries[j].text == p
  }

  /**
   * The rules: a pattern that is not empty is replaced by the text of its first
   * entry that differs from it, and by nothing if there is no such entry.
   */
  lemma {:induction false} RulesAreFirstEntries(entries: seq<Replacement>, p: string, t: string)
    ensures p in Rules(entries) && Rules(entries)[p] == t <==>
            exists i: nat :: i < |entries| && ReplacesFirst(entries, i, p, t)
  {
    if entries == [] {
    } else {
      var n := |entries| - 1;
      var front, last := entries[..n], entries[n];
      RulesAreFirstEntries(front, p, t);
      if p in Rules(front) {
        RulesAreFirstEntries(front, p, Rules(front)[p]);
        var i: nat :| i < n && ReplacesFirst(front, i, p, Rules(front)[p]);
        assert ReplacesFirst(entries, i, p, Rules(front)[p]);
      } else {
        NoRuleNoEffect(front, p);
        if Rules(entries) != Rules(front) && last.pattern == p { assert ReplacesFirst(entries, n, p, last.text); }
      }
      forall i: nat | i < n && ReplacesFirst(entries, i, p, t) ensures ReplacesFirst(front, i, p, t) {
      }
    }
  }

  lemma {:induction false} NoRuleNoEffect(entries: seq<Replacement>, p: string)
    requires p !in Rules(entries)
    ensures forall j :: 0 <= j < |entries| && entries[j].pattern == p != "" ==> entries[j].text == p
  {
    if entries == [] {
    } else {
      var n := |entries| - 1;
      NoRuleNoEffect(entries[..n], p);
      forall j | 0 <= j < |entries| && entries[j].pattern == p != "" ensures entries[j].text == p {
        if j < n { assert entries[..n][j] == entries[j]; }
      }
    }
  }

  /** When the patterns are distinct, the order of the list does not matter. */
  lemma {:induction false} DistinctEntriesAreRules(entries: seq<Replacement>, r: Replacement)
    requires forall i, j :: 0 <= i < j < |entries| ==> entries[i].pattern != entries[j].pattern
    ensures r in entries && Effective(r) <==> r.pattern in Rules(entries) && Rules(entries)[r.pattern] == r.text
  {
    if entries == [] {
    } else {
      var n := |entries| - 1;
      var last := entries[n];
      DistinctEntriesAreRules(entries[..n], r);
      PatternIsInEntries(entries[..n], last.pattern);
      assert entries == entries[..n] + [last];
    }
  }

  lemma {:induction false} PatternIsInEntries(entries: seq<Replacement>, p: string)
    ensures p in Rules(entries) ==> exists i :: 0 <= i < |entries| && entries[i].pattern == p
  {
    if p in Rules(entries) && entries[|entries| - 1].pattern != p {
      var n := |entries| - 1;
      PatternIsInEntries(entries[..n], p);
      var i :| 0 <= i < n && entries[..n][i].pattern == p;
      assert entries[i].pattern == p;
    }
  }

  // ----- The normalized list: longest pattern first -----

  predicate Outranks(a: string, b: string) {
    |a| > |b| || (|a| == |b| && Less(Bytes(a), Bytes(b)))
  }

  lemma OutranksTotal(a: string, b: string)
    ensures a != b ==> Outranks(a, b) || Outranks(b, a)
    ensures !(Outranks(a, b) && Outranks(b, a))
  {
    LessTotal(Bytes(a), Bytes(b));
    BytesInjective(a, b);
  }

  lemma OutranksTransitive(a: string, b: string, c: string)
    requires Outranks(a, b) && Outranks(b, c)
    ensures Outranks(a, c)
  {
    if |a| == |b| == |c| { LessTransitive(Bytes(a), Bytes(b), Bytes(c)); }
  }

  ghost predicate Ranked(list: seq<Replacement>) {
    forall i, j :: 0 <= i < j < |list| ==> Outranks(list[i].pattern, list[j].pattern)
  }

  /** The list holds exactly the rules, ranked. */
  ghost predicate Normal(rules: map<string, string>, list: seq<Replacement>) {
    && Ranked(list)
    && forall r :: r in list <==> r.pattern in rules && rules[r.pattern] == r.text
  }

  function Inserted(r: Replacement, list: seq<Replacement>): seq<Replacement> {
    if list == [] || Outranks(r.pattern, list[0].pattern) then [r] + list
    else [list[0]] + Inserted(r, list[1..])
  }

  function Sorted(list: seq<Replacement>): seq<Replacement> {
    if list == [] then [] else Inserted(list[0], Sorted(list[1..]))
  }

  lemma {:induction false} InsertedHas(r: Replacement, list: seq<Replacement>, x: Replacement)
    ensures x in Inserted(r, list) <==> x == r || x in list
  {
    if list != [] && !Outranks(r.pattern, list[0].pattern) {
      InsertedHas(r, list[1..], x);
      assert list == [list[0]] + list[1..];
    }
  }

  lemma PrependIsRanked(r: Replacement, list: seq<Replacement>)
    requires Ranked(list) && (list != [] ==> Outranks(r.pattern, list[0].pattern))
    ensures Ranked([r] + list)
  {
    var all := [r] + list;
    forall i, j | 0 <= i < j < |all| ensures Outranks(all[i].pattern, all[j].pattern) {
      if i == 0 && j > 1 { OutranksTransitive(r.pattern, list[0].pattern, list[j - 1].pattern); }
    }
  }

  lemma {:induction false} InsertedIsRanked(r: Replacement, list: seq<Replacement>)
    requires Ranked(list) && forall x :: x in list ==> x.pattern != r.pattern
    ensures Ranked(Inserted(r, list))
  {
    if list == [] {
    } else {
      if Outranks(r.pattern, list[0].pattern) {
        PrependIsRanked(r, list);
      } else {
        OutranksTotal(r.pattern, list[0].pattern);
        InsertedIsRanked(r, list[1..]);
        var rest := Inserted(r, list[1..]);
        InsertedHas(r, list[1..], rest[0]);
        assert rest[0] in rest;
        PrependIsRanked(list[0], rest);
      }
    }
  }

  lemma {:induction false} SortedIsRanked(list: seq<Replacement>)
    requires forall i, j :: 0 <= i < j < |list| ==> list[i].pattern != list[j].pattern
    ensures Ranked(Sorted(list))
    ensures forall r :: r in Sorted(list) <==> r in list
  {
    if list == [] {
    } else {
      var rest := Sorted(list[1..]);
      SortedIsRanked(list[1..]);
      forall r | r in rest ensures r.pattern != list[0].pattern {
        var i :| 0 <= i < |list[1..]| && list[1..][i] == r;
        assert list[i + 1] == r;
      }
      InsertedIsRanked(list[0], rest);
      forall r ensures r in Sorted(list) <==> r in list {
        InsertedHas(list[0], rest, r);
        assert list == [list[0]] + list[1..];
      }
    }
  }

  /** Drops what has no effect, keeps the first entry of a pattern, ranks the rest. */
  method Normalize(entries: seq<Replacement>) returns (result: seq<Replacement>)
    ensures Normal(Rules(entries), result)
  {
    var seen: set<string> := {};
    result := [];
    for n := 0 to |entries|
      invariant seen == Rules(entries[..n]).Keys
      invariant forall r :: r in result <==>
                  r.pattern in Rules(entries[..n]) && Rules(entries[..n])[r.pattern] == r.text
      invariant forall i, j :: 0 <= i < j < |result| ==> result[i].pattern != result[j].pattern
    {
      var entry := entries[n];
      assert entries[..n + 1][..n] == entries[..n] && entries[..n + 1][n] == entry;
      if entry.pattern != "" && entry.pattern != entry.text && entry.pattern !in seen {
        forall i | 0 <= i < |result| ensures result[i].pattern != entry.pattern {
          assert result[i] in result;
        }
        seen := seen + {entry.pattern};
        result := result + [entry];
      }
    }
    assert entries[..|entries|] == entries;
    SortedIsRanked(result);
    result := Sorted(result);
  }

  // ----- One pass over the input -----

  /** The first entry whose pattern stands at the front. */
  function FirstMatch(list: seq<Replacement>, source: string): Option<Replacement> {
    if list == [] then None
    else if list[0].pattern <= source then Some(list[0])
    else FirstMatch(list[1..], source)
  }

  lemma {:induction false} FirstMatchHas(list: seq<Replacement>, source: string)
    ensures FirstMatch(list, source).Some? ==>
              FirstMatch(list, source).value in list && FirstMatch(list, source).value.pattern <= source
    ensures FirstMatch(list, source).None? ==> forall r :: r in list ==> !(r.pattern <= source)
  {
    if list == [] {
    } else {
      FirstMatchHas(list[1..], source);
      assert list == [list[0]] + list[1..];
    }
  }

  predicate AllHavePatterns(list: seq<Replacement>) {
    forall i :: 0 <= i < |list| ==> list[i].pattern != ""
  }

  /** What the scan writes from here on. */
  function Scanned(list: seq<Replacement>, source: string): string
    requires AllHavePatterns(list)
    decreases |source|
  {
    if source == "" then ""
    else
      FirstMatchHas(list, source);
      match FirstMatch(list, source)
      case Some(r) => r.text + Scanned(list, source[|r.pattern|..])
      case None => [source[0]] + Scanned(list, source[1..])
  }

  /** One round of the scan that replaces an occurrence. */
  lemma ScanReplaces(list: seq<Replacement>, input: string, offset: nat, output: string, r: Replacement)
    requires AllHavePatterns(list) && offset < |input|
    requires FirstMatch(list, input[offset..]) == Some(r)
    requires Scanned(list, input) == output + Scanned(list, input[offset..])
    ensures 0 < |r.pattern| <= |input| - offset
    ensures Scanned(list, input) == (output + r.text) + Scanned(list, input[offset + |r.pattern|..])
  {
    var source := input[offset..];
    FirstMatchHas(list, source);
    assert source[|r.pattern|..] == input[offset + |r.pattern|..];
    assert Scanned(list, source) == r.text + Scanned(list, source[|r.pattern|..]);
  }

  /** One round of the scan that copies a byte. */
  lemma ScanCopies(list: seq<Replacement>, input: string, offset: nat, output: string)
    requires AllHavePatterns(list) && offset < |input|
    requires FirstMatch(list, input[offset..]) == None
    requires Scanned(list, input) == output + Scanned(list, input[offset..])
    ensures Scanned(list, input) == (output + [input[offset]]) + Scanned(list, input[offset + 1..])
  {
    var source := input[offset..];
    assert source[1..] == input[offset + 1..];
    assert Scanned(list, source) == [source[0]] + Scanned(list, source[1..]);
  }

  /** replaceOnce: an offset moves over the input and a buffer takes the output. */
  method ReplaceOnce(input: string, list: seq<Replacement>) returns (output: string)
    requires AllHavePatterns(list)
    ensures output == Scanned(list, input)
  {
    output := "";
    if list == [] {
      NoRulesCopies(input);
      return input;
    }
    var offset := 0;
    while offset < |input|
      invariant 0 <= offset <= |input|
      invariant Scanned(list, input) == output + Scanned(list, input[offset..])
    {
      var matched := FindMatch(list, input[offset..]);
      match matched {
        case Some(r) =>
          ScanReplaces(list, input, offset, output, r);
          output := output + r.text;
          offset := offset + |r.pattern|;
        case None =>
          ScanCopies(list, input, offset, output);
          output := output + [input[offset]];
          offset := offset + 1;
      }
    }
  }

  method FindMatch(list: seq<Replacement>, source: string) returns (matched: Option<Replacement>)
    ensures matched == FirstMatch(list, source)
  {
    for i := 0 to |list|
      invariant FirstMatch(list, source) == FirstMatch(list[i..], source)
    {
      assert list[i..][1..] == list[i + 1..];
      if list[i].pattern <= source {
        return Some(list[i]);
      }
    }
    return None;
  }

  lemma {:induction false} NoRulesCopies(input: string)
    ensures Scanned([], input) == input
  {
    if input == "" {
    } else {
      NoRulesCopies(input[1..]);
    }
  }

  // ----- The reference: leftmost, longest, once -----

  /** The longest prefix of `source`, of at most `n` bytes, that is a pattern. */
  function LongestUpTo(rules: map<string, string>, source: string, n: nat): Option<string>
    requires n <= |source|
  {
    if source[..n] in rules then Some(source[..n])
    else if n == 0 then None
    else LongestUpTo(rules, source, n - 1)
  }

  function LongestMatch(rules: map<string, string>, source: string): Option<string> {
    LongestUpTo(rules, source, |source|)
  }

  lemma {:induction false} LongestIsLongest(rules: map<string, string>, source: string, n: nat)
    requires n <= |source|
    ensures LongestUpTo(rules, source, n).Some? ==>
              var p := LongestUpTo(rules, source, n).value;
              p in rules && p <= source && forall q :: q in rules && q <= source && |q| <= n ==> |q| <= |p|
    ensures LongestUpTo(rules, source, n).None? ==> forall q :: q in rules && q <= source ==> |q| > n
  {
    if source[..n] !in rules {
      if n > 0 { LongestIsLongest(rules, source, n - 1); }
      forall q | q in rules && q <= source ensures |q| != n {
        assert q == source[..|q|];
      }
    }
  }

  /** A part of the input: a byte that is copied, or an occurrence that is replaced. */
  datatype Piece = Copied(c: char) | Replaced(pattern: string)

  function Source(pieces: seq<Piece>): string {
    if pieces == [] then ""
    else (match pieces[0] case Copied(c) => [c] case Replaced(p) => p) + Source(pieces[1..])
  }

  function Output(rules: map<string, string>, pieces: seq<Piece>): string {
    if pieces == [] then ""
    else (match pieces[0]
          case Copied(c) => [c]
          case Replaced(p) => if p in rules then rules[p] else p) + Output(rules, pieces[1..])
  }

  ghost predicate NoneAt(rules: map<string, string>, source: string) {
    forall q :: q in rules ==> !(q <= source)
  }

  ghost predicate LongestAt(rules: map<string, string>, source: string, p: string) {
    p in rules && p <= source && forall q :: q in rules && q <= source ==> |q| <= |p|
  }

  /** Read from the left, every piece is the longest occurrence at its place, or a byte where none is. */
  ghost predicate LeftmostLongest(rules: map<string, string>, pieces: seq<Piece>, source: string) {
    if pieces == [] then source == ""
    else
      match pieces[0]
      case Copied(c) =>
        source != "" && source[0] == c && NoneAt(rules, source) && LeftmostLongest(rules, pieces[1..], source[1..])
      case Replaced(p) =>
        LongestAt(rules, source, p) && LeftmostLongest(rules, pieces[1..], source[|p|..])
  }

  function Pieces(rules: map<string, string>, source: string): seq<Piece>
    requires "" !in rules
    decreases |source|
  {
    if source == "" then []
    else
      LongestIsLongest(rules, source, |source|);
      match LongestMatch(rules, source)
      case Some(p) => [Replaced(p)] + Pieces(rules, source[|p|..])
      case None => [Copied(source[0])] + Pieces(rules, source[1..])
  }

  /** The rewriting the rules mean: cut the original into pieces once, then write each piece's output. */
  function Rewritten(rules: map<string, string>, source: string): string
    requires "" !in rules
  {
    Output(rules, Pieces(rules, source))
  }

  /** The pieces, put back together, are the original. */
  lemma {:induction false} PiecesCoverTheSource(rules: map<string, string>, pieces: seq<Piece>, source: string)
    requires LeftmostLongest(rules, pieces, source)
    ensures Source(pieces) == source
  {
    if pieces == [] {
    } else {
      match pieces[0]
      case Copied(c) => PiecesCoverTheSource(rules, pieces[1..], source[1..]);
      case Replaced(p) => PiecesCoverTheSource(rules, pieces[1..], source[|p|..]);
    }
  }

  /** Each piece is the leftmost-longest choice. */
  lemma {:induction false} PiecesAreLeftmostLongest(rules: map<string, string>, source: string)
    requires "" !in rules
    ensures LeftmostLongest(rules, Pieces(rules, source), source)
    decreases |source|
  {
    if source == "" {
    } else {
      LongestIsLongest(rules, source, |source|);
      match LongestMatch(rules, source)
      case Some(p) =>
        PiecesAreLeftmostLongest(rules, source[|p|..]);
        assert Pieces(rules, source)[1..] == Pieces(rules, source[|p|..]);
      case None =>
        PiecesAreLeftmostLongest(rules, source[1..]);
        assert Pieces(rules, source)[1..] == Pieces(rules, source[1..]);
    }
  }

  lemma NoMatchIsNone(rules: map<string, string>, source: string)
    requires NoneAt(rules, source)
    ensures LongestMatch(rules, source) == None
  {
    LongestIsLongest(rules, source, |source|);
  }

  lemma LongestIsUnique(rules: map<string, string>, source: string, p: string)
    requires LongestAt(rules, source, p)
    ensures LongestMatch(rules, source) == Some(p)
  {
    LongestIsLongest(rules, source, |source|);
    var q := LongestMatch(rules, source).value;
    assert q == source[..|q|] && p == source[..|p|];
  }

  /** There is only one way to cut the original. */
  lemma {:induction false} LeftmostLongestIsUnique(rules: map<string, string>, pieces: seq<Piece>, source: string)
    requires "" !in rules && LeftmostLongest(rules, pieces, source)
    ensures pieces == Pieces(rules, source)
  {
    if pieces == [] {
    } else {
      assert pieces == [pieces[0]] + pieces[1..];
      match pieces[0]
      case Copied(c) =>
        NoMatchIsNone(rules, source);
        LeftmostLongestIsUnique(rules, pieces[1..], source[1..]);
      case Replaced(p) =>
        LongestIsUnique(rules, source, p);
        LeftmostLongestIsUnique(rules, pieces[1..], source[|p|..]);
    }
  }

  // ----- The scan of a normalized list is the reference -----

  lemma {:induction false} FirstOfRankedIsLongest(rules: map<string, string>, list: seq<Replacement>, source: string)
    requires Normal(rules, list)
    ensures LongestMatch(rules, source) ==
            match FirstMatch(list, source) case Some(r) => Some(r.pattern) case None => None
    ensures FirstMatch(list, source).Some? ==>
              var r := FirstMatch(list, source).value; r.pattern in rules && rules[r.pattern] == r.text
  {
    LongestIsLongest(rules, source, |source|);
    FirstMatchHas(list, source);
    match FirstMatch(list, source)
    case Some(r) =>
      var p := LongestMatch(rules, source).value;
      RankedFirstIsLongest(list, source, Replacement(p, rules[p]));
      assert p == source[..|p|] && r.pattern == source[..|r.pattern|];
    case None =>
      forall p | p in rules ensures !(p <= source) {
        assert Replacement(p, rules[p]) in list;
      }
  }

  lemma {:induction false} RankedFirstIsLongest(list: seq<Replacement>, source: string, r: Replacement)
    requires Ranked(list) && r in list && r.pattern <= source
    ensures FirstMatch(list, source).Some? && |FirstMatch(list, source).value.pattern| >= |r.pattern|
  {
    var i :| 0 <= i < |list| && list[i] == r;
    if list[0].pattern <= source {
      assert i > 0 ==> Outranks(list[0].pattern, list[i].pattern);
    } else {
      assert list[1..][i - 1] == r;
      RankedFirstIsLongest(list[1..], source, r);
    }
  }

  lemma NormalHasNoEmpty(rules: map<string, string>, list: seq<Replacement>)
    requires Normal(rules, list) && "" !in rules
    ensures AllHavePatterns(list)
  {
  }

  /** One pass with the normalized list writes exactly the leftmost-longest rewriting of the original. */
  lemma {:induction false} ScanIsLeftmostLongest(rules: map<string, string>, list: seq<Replacement>, source: string)
    requires Normal(rules, list) && "" !in rules && AllHavePatterns(list)
    ensures Scanned(list, source) == Rewritten(rules, source)
    decreases |source|
  {
    if source == "" {
    } else {
      FirstOfRankedIsLongest(rules, list, source);
      LongestIsLongest(rules, source, |source|);
      FirstMatchHas(list, source);
      match FirstMatch(list, source)
      case Some(r) =>
        ScanIsLeftmostLongest(rules, list, source[|r.pattern|..]);
        assert Pieces(rules, source)[1..] == Pieces(rules, source[|r.pattern|..]);
      case None =>
        ScanIsLeftmostLongest(rules, list, source[1..]);
        assert Pieces(rules, source)[1..] == Pieces(rules, source[1..]);
    }
  }

  /** The bootstrap pipeline: normalize, then one pass. */
  method Rewrite(entries: seq<Replacement>, input: string) returns (output: string)
    ensures output == Rewritten(Rules(entries), input)
  {
    var list := Normalize(entries);
    NormalHasNoEmpty(Rules(entries), list);
    output := ReplaceOnce(input, list);
    ScanIsLeftmostLongest(Rules(entries), list, input);
  }

  /** An input in which no pattern occurs is left as it is. */
  lemma {:induction false} NoOccurrenceNoChange(rules: map<string, string>, source: string)
    requires "" !in rules
    requires forall i, p :: 0 <= i <= |source| && p in rules ==> !(p <= source[i..])
    ensures Rewritten(rules, source) == source
    decreases |source|
  {
    if source == "" {
    } else {
      LongestIsLongest(rules, source, |source|);
      assert source[0..] == source;
      forall i, p | 0 <= i <= |source[1..]| && p in rules ensures !(p <= source[1..][i..]) {
        assert source[1..][i..] == source[i + 1..];
      }
      NoOccurrenceNoChange(rules, source[1..]);
      assert Pieces(rules, source)[1..] == Pieces(rules, source[1..]);
    }
  }

  /** With distinct patterns, any two orders of the same entries rewrite every input alike. */
  lemma OrderDoesNotMatter(a: seq<Replacement>, b: seq<Replacement>)
    requires forall i, j :: 0 <= i < j < |a| ==> a[i].pattern != a[j].pattern
    requires forall i, j :: 0 <= i < j < |b| ==> b[i].pattern != b[j].pattern
    requires forall r :: r in a <==> r in b
    ensures Rules(a) == Rules(b)
  {
    forall p | p in Rules(a) ensures p in Rules(b) && Rules(b)[p] == Rules(a)[p] {
      DistinctEntriesAreRules(a, Replacement(p, Rules(a)[p]));
      DistinctEntriesAreRules(b, Replacement(p, Rules(a)[p]));
    }
    forall p | p in Rules(b) ensures p in Rules(a) {
      DistinctEntriesAreRules(a, Replacement(p, Rules(b)[p]));
      DistinctEntriesAreRules(b, Replacement(p, Rules(b)[p]));
    }
  }
}
