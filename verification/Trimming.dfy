/** What strings.TrimSpace promises, for every string of bytes, UTF-8 or not. */
module Trimming {
  import opened GoStrings

  /** Space runes, one after another. */
  predicate AllSpaces(ws: seq<string>) {
    forall i :: 0 <= i < |ws| ==> IsSpaceRune(ws[i])
  }

  function Joined(ws: seq<string>): string {
    if ws == [] then "" else ws[0] + Joined(ws[1..])
  }

  ghost predicate NoSpaceAtFront(v: string) {
    forall n :: 0 <= n <= |v| ==> !IsSpaceRune(v[..n])
  }

  ghost predicate NoSpaceAtEnd(v: string) {
    forall n :: 0 <= n <= |v| ==> !IsSpaceRune(v[n..])
  }

  /** Cutting the space runes of `front` and `back` off `s` leaves `v`, and no more could be cut off. */
  ghost predicate Around(front: seq<string>, v: string, back: seq<string>, s: string) {
    && AllSpaces(front) && AllSpaces(back) && s == Joined(front) + v + Joined(back)
    && NoSpaceAtFront(v) && NoSpaceAtEnd(v)
  }

  /** `v` is `s` without the white space around it. */
  ghost predicate Trims(s: string, v: string) {
    exists front, back :: Around(front, v, back, s)
  }

  lemma {:induction false} JoinedAppend(ws: seq<string>, w: string)
    ensures Joined(ws + [w]) == Joined(ws) + w
  {
    if ws == [] {
      assert [] + [w] == [w] && [w][1..] == [];
    } else {
      JoinedAppend(ws[1..], w);
      assert (ws + [w])[1..] == ws[1..] + [w];
    }
  }

  lemma JoinedPrepend(w: string, ws: seq<string>)
    ensures Joined([w] + ws) == w + Joined(ws)
  {
    assert ([w] + ws)[1..] == ws;
  }

  // ----- TrimSpace trims -----

  lemma SpacesAreShort(w: string)
    requires IsSpaceRune(w)
    ensures 1 <= |w| <= 3
  {
  }

  lemma LeadingSpaceIsAll(s: string)
    ensures LeadingSpace(s) == 0 <==> NoSpaceAtFront(s)
  {
    if LeadingSpace(s) == 0 {
      forall n | 0 <= n <= |s| ensures !IsSpaceRune(s[..n]) {
        if IsSpaceRune(s[..n]) { SpacesAreShort(s[..n]); }
      }
    }
  }

  lemma TrailingSpaceIsAll(s: string)
    ensures TrailingSpace(s) == 0 <==> NoSpaceAtEnd(s)
  {
    if TrailingSpace(s) == 0 {
      forall n | 0 <= n <= |s| ensures !IsSpaceRune(s[n..]) {
        if IsSpaceRune(s[n..]) {
          SpacesAreShort(s[n..]);
          SuffixOfLength(s, n);
        }
      }
    }
  }

  lemma SuffixOfLength(s: string, n: nat)
    requires n <= |s| && IsSpaceRune(s[n..]) && 1 <= |s| - n <= 3
    ensures TrailingSpace(s) > 0
  {
    var k := |s| - n;
    assert s[|s| - k..] == s[n..];
    if k == 1 {
      assert IsSpaceRune(s[|s| - 1..]);
    } else if k == 2 {
      assert IsSpaceRune(s[|s| - 2..]);
    } else {
      assert IsSpaceRune(s[|s| - 3..]);
    }
  }

  lemma {:induction false} TrimLeftCuts(s: string) returns (front: seq<string>)
    ensures AllSpaces(front) && s == Joined(front) + TrimLeft(s)
    decreases |s|
  {
    if LeadingSpace(s) == 0 {
      front := [];
    } else {
      var n := LeadingSpace(s);
      var rest := TrimLeftCuts(s[n..]);
      front := [s[..n]] + rest;
      FrontGrows(s, n, rest, TrimLeft(s[n..]));
    }
  }

  lemma FrontGrows(s: string, n: nat, ws: seq<string>, v: string)
    requires n <= |s| && IsSpaceRune(s[..n]) && AllSpaces(ws) && s[n..] == Joined(ws) + v
    ensures AllSpaces([s[..n]] + ws) && s == Joined([s[..n]] + ws) + v
  {
    JoinedPrepend(s[..n], ws);
    assert s == s[..n] + s[n..];
  }

  lemma BackGrows(s: string, n: nat, ws: seq<string>, v: string)
    requires n <= |s| && IsSpaceRune(s[n..]) && AllSpaces(ws) && s[..n] == v + Joined(ws)
    ensures AllSpaces(ws + [s[n..]]) && s == v + Joined(ws + [s[n..]])
  {
    JoinedAppend(ws, s[n..]);
    assert s == s[..n] + s[n..];
  }

  lemma {:induction false} TrimRightCuts(s: string) returns (back: seq<string>)
    ensures AllSpaces(back) && s == TrimRight(s) + Joined(back)
    decreases |s|
  {
    if TrailingSpace(s) == 0 {
      back := [];
    } else {
      var n := TrimRightStep(s);
      var t := s[..n];
      var rest := TrimRightCuts(t);
      back := rest + [s[n..]];
      BackGrows(s, n, rest, TrimRight(t));
    }
  }

  lemma TrimRightStep(s: string) returns (n: nat)
    requires TrailingSpace(s) > 0
    ensures n < |s| && IsSpaceRune(s[n..]) && TrimRight(s) == TrimRight(s[..n])
  {
    n := |s| - TrailingSpace(s);
  }

  lemma TrimSpaceTrims(s: string)
    ensures Trims(s, TrimSpace(s))
  {
    var front := TrimLeftCuts(s);
    var back := TrimRightCuts(TrimLeft(s));
    TrimSpaceIsBare(s);
    IsAround(front, TrimSpace(s), back, TrimLeft(s), s);
  }

  lemma IsAround(front: seq<string>, v: string, back: seq<string>, rest: string, s: string)
    requires AllSpaces(front) && AllSpaces(back) && s == Joined(front) + rest && rest == v + Joined(back)
    requires NoSpaceAtFront(v) && NoSpaceAtEnd(v)
    ensures Trims(s, v)
  {
    assert Around(front, v, back, s);
  }

  lemma TrimSpaceIsBare(s: string)
    ensures NoSpaceAtFront(TrimSpace(s)) && NoSpaceAtEnd(TrimSpace(s))
  {
    PrefixHasNoLeadingSpace(TrimSpace(s), TrimLeft(s));
    LeadingSpaceIsAll(TrimSpace(s));
    TrailingSpaceIsAll(TrimSpace(s));
  }

  // ----- Nothing else does -----

  /** No space rune is a proper prefix of another. */
  lemma SpaceInFront(w: string, t: string)
    requires IsSpaceRune(w)
    ensures LeadingSpace(w + t) == |w|
  {
    assert (w + t)[..|w|] == w;
    if |w| >= 2 { assert (w + t)[..1] == w[..1]; }
    if |w| == 3 { assert (w + t)[..2] == w[..2]; }
  }

  /** Nor a proper suffix. */
  lemma SpaceAtEnd(t: string, w: string)
    requires IsSpaceRune(w)
    ensures TrailingSpace(t + w) == |w|
  {
    var s := t + w;
    assert s[|s| - |w|..] == w;
    if |w| >= 2 { assert s[|s| - 1..] == w[|w| - 1..]; }
    if |w| == 3 { assert s[|s| - 2..] == w[1..]; }
  }

  lemma {:induction false} TrimLeftSkips(front: seq<string>, t: string)
    requires AllSpaces(front)
    ensures TrimLeft(Joined(front) + t) == TrimLeft(t)
  {
    if front == [] {
      assert Joined(front) + t == t;
    } else {
      var w, tail := front[0], Joined(front[1..]) + t;
      assert Joined(front) + t == w + tail;
      SpaceInFront(w, tail);
      assert (w + tail)[|w|..] == tail;
      TrimLeftSkips(front[1..], t);
    }
  }

  lemma {:induction false} TrimRightSkips(t: string, back: seq<string>)
    requires AllSpaces(back)
    ensures TrimRight(t + Joined(back)) == TrimRight(t)
    decreases |back|
  {
    if back == [] {
      assert t + Joined(back) == t;
    } else {
      var w := back[0];
      assert t + Joined(back) == (t + w) + Joined(back[1..]);
      TrimRightSkips(t + w, back[1..]);
      SpaceAtEnd(t, w);
      assert (t + w)[..|t|] == t;
    }
  }

  /** Space runes start with a byte that continues none, so none straddles the end of `v`. */
  lemma NoneStraddles(v: string, back: seq<string>)
    requires v != "" && NoSpaceAtFront(v) && AllSpaces(back)
    ensures NoSpaceAtFront(v + Joined(back))
  {
    var s := v + Joined(back);
    forall n | 0 <= n <= |s| ensures !IsSpaceRune(s[..n]) {
      if n <= |v| {
        assert s[..n] == v[..n];
      } else {
        assert IsSpaceRune(back[0]) && s[..n][|v|] == back[0][0];
        StartIsNoContinuation(back[0], s[..n], |v|);
      }
    }
  }

  lemma StartIsNoContinuation(w: string, r: string, i: nat)
    requires IsSpaceRune(w) && 0 < i < |r| && r[i] == w[0]
    ensures !IsSpaceRune(r)
  {
  }

  /** White space can be cut off in only one way. */
  lemma TrimsIsUnique(s: string, v: string)
    requires Trims(s, v)
    ensures v == TrimSpace(s)
  {
    var front, back :| Around(front, v, back, s);
    assert s == Joined(front) + (v + Joined(back));
    TrimLeftSkips(front, v + Joined(back));
    if v == "" {
      assert v + Joined(back) == Joined(back) + "";
      TrimLeftSkips(back, "");
    } else {
      NoneStraddles(v, back);
      LeadingSpaceIsAll(v + Joined(back));
      TrimRightSkips(v, back);
      TrailingSpaceIsAll(v);
    }
  }

  /** What is left after trimming needs no more of it. */
  lemma TrimsIsFixed(s: string, v: string)
    requires Trims(s, v)
    ensures v == TrimSpace(s) && TrimSpace(v) == v
  {
    TrimsIsUnique(s, v);
    var front, back :| Around(front, v, back, s);
    BareIsTrimmed(v);
  }

  /** A string is left alone exactly when it has no white space at its edges. */
  lemma BareIsTrimmed(s: string)
    ensures TrimSpace(s) == s <==> NoSpaceAtFront(s) && NoSpaceAtEnd(s)
  {
    if NoSpaceAtFront(s) && NoSpaceAtEnd(s) {
      assert s == Joined([]) + s + Joined([]);
      assert Around([], s, [], s);
      TrimsIsUnique(s, s);
    } else {
      TrimSpaceIsBare(s);
    }
  }
}
