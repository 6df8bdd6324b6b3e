/** Scrubbing secret values out of text before it is logged. */
module Redact {
  import opened Text
  import opened CreateArgs

  const PLACEHOLDER := "***REDACTED***"

  /** redactSecrets: each non-empty value in turn is replaced throughout. */
  function Redacted(s: string, secrets: seq<Secret>): string {
    if secrets == [] then s
    else
      var before := Redacted(s, secrets[..|secrets| - 1]);
      var value := secrets[|secrets| - 1].value;
      if value == "" then before else ReplaceAll(before, value, PLACEHOLDER)
  }

  method RedactSecrets(s: string, secrets: seq<Secret>) returns (out: string)
    ensures out == Redacted(s, secrets)
  {
    out := s;
    for i := 0 to |secrets|
      invariant out == Redacted(s, secrets[..i])
    {
      assert secrets[..i + 1][..i] == secrets[..i];
      if secrets[i].value != "" {
        out := ReplaceAll(out, secrets[i].value, PLACEHOLDER);
      }
    }
    assert secrets[..|secrets|] == secrets;
  }

  /** The pieces with sep between each and the next. */
  function Join(pieces: seq<string>, sep: string): string
    requires pieces != []
  {
    if |pieces| == 1 then pieces[0] else pieces[0] + sep + Join(pieces[1..], sep)
  }

  lemma JoinFront(pieces: seq<string>, sep: string)
    requires pieces != []
    ensures Join([""] + pieces, sep) == sep + Join(pieces, sep)
  {
    assert ([""] + pieces)[1..] == pieces;
    assert "" + sep == sep;
  }

  lemma JoinLonger(c: char, pieces: seq<string>, sep: string)
    requires pieces != []
    ensures Join([[c] + pieces[0]] + pieces[1..], sep) == [c] + Join(pieces, sep)
    ensures pieces[0] <= Join(pieces, sep)
  {
    var longer := [[c] + pieces[0]] + pieces[1..];
    assert longer[1..] == pieces[1..];
    if |pieces| > 1 {
      assert [c] + pieces[0] + sep + Join(pieces[1..], sep) == [c] + (pieces[0] + sep + Join(pieces[1..], sep));
    }
  }

  /** Replacing changes nothing but the word: the text is pieces free of it, joined by p afterwards instead of by w. */
  lemma {:induction false} ReplacingKeepsTheRest(t: string, w: string, p: string) returns (pieces: seq<string>)
    requires w != ""
    ensures pieces != [] && forall i | 0 <= i < |pieces| :: !Contains(pieces[i], w)
    ensures Join(pieces, w) == t && Join(pieces, p) == ReplaceAll(t, w, p)
    decreases |t|
  {
    if t == "" {
      pieces := [""];
    } else if w <= t {
      pieces := ReplacingKeepsTheRest(t[|w|..], w, p);
      JoinFront(pieces, w);
      JoinFront(pieces, p);
      assert t == w + t[|w|..];
      pieces := [""] + pieces;
    } else {
      pieces := ReplacingKeepsTheRest(t[1..], w, p);
      JoinLonger(t[0], pieces, w);
      JoinLonger(t[0], pieces, p);
      assert t == [t[0]] + t[1..];
      NoneInFront(t, w, pieces[0]);
      pieces := [[t[0]] + pieces[0]] + pieces[1..];
    }
  }

  lemma NoneInFront(t: string, w: string, piece: string)
    requires t != "" && w != "" && !(w <= t) && piece <= t[1..] && !Contains(piece, w)
    ensures !Contains([t[0]] + piece, w)
  {
    var longer := [t[0]] + piece;
    assert longer <= t && (|w| <= |longer| ==> longer[0..|w|] == t[..|w|]);
    if i :| 0 <= i <= |longer| && OccursAt(longer, w, i) {
      OccursPast([t[0]], piece, w, i);
    }
  }

  /** With v laid d places into p (before it when negative), do they agree wherever both have a character? */
  predicate AgreeAt(v: string, p: string, d: int) {
    forall k | 0 <= k < |v| && 0 <= d + k < |p| :: v[k] == p[d + k]
  }

  /** Can v and p occur in one text sharing at least one place? */
  ghost predicate Overlaps(v: string, p: string) {
    exists d | -|v| < d < |p| :: AgreeAt(v, p, d)
  }

  lemma HeadOverlaps(v: string, p: string, k: nat, tail: string)
    requires k < |v| && p != "" && v[k..] <= p + tail
    ensures Overlaps(v, p)
  {
    forall i | 0 <= i < |v| && 0 <= i - k < |p|
      ensures v[i] == p[i - k]
    {
      assert v[i] == v[k..][i - k] == (p + tail)[i - k];
    }
    assert AgreeAt(v, p, 0 - k);
  }

  lemma InsideOverlaps(v: string, p: string, tail: string, i: nat)
    requires v != "" && i < |p| && OccursAt(p + tail, v, i)
    ensures Overlaps(v, p)
  {
    forall k | 0 <= k < |v| && 0 <= i + k < |p|
      ensures v[k] == p[i + k]
    {
      assert v[k] == (p + tail)[i..i + |v|][k] == (p + tail)[i + k];
    }
    assert AgreeAt(v, p, i);
  }

  lemma OccursLater(first: string, rest: string, v: string)
    requires Contains(rest, v)
    ensures Contains(first + rest, v)
  {
    var j :| 0 <= j <= |rest| && OccursAt(rest, v, j);
    assert (first + rest)[j + |first|..j + |first| + |v|] == rest[j..j + |v|];
    assert OccursAt(first + rest, v, j + |first|);
  }

  lemma OccursPast(first: string, rest: string, v: string, i: nat)
    requires OccursAt(first + rest, v, i) && i >= |first|
    ensures OccursAt(rest, v, i - |first|)
  {
    assert (first + rest)[i..i + |v|] == rest[i - |first|..i - |first| + |v|];
  }

  /** A value that can share no place with p heads a replaced text only if it headed the text before. */
  lemma {:induction false} HeadWasThere(t: string, w: string, p: string, v: string, k: nat)
    requires w != "" && p != "" && k < |v| && !Overlaps(v, p)
    requires v[k..] <= ReplaceAll(t, w, p)
    ensures v[k..] <= t && !(w <= t)
    decreases |v| - k
  {
    var out := ReplaceAll(t, w, p);
    if w <= t {
      HeadOverlaps(v, p, k, ReplaceAll(t[|w|..], w, p));
    } else {
      assert t != "" && v[k] == out[0] == t[0];
      assert out[1..] == ReplaceAll(t[1..], w, p);
      assert v[k..][1..] == v[k + 1..];
      if k + 1 < |v| {
        HeadWasThere(t[1..], w, p, v, k + 1);
        assert v[k..] == [v[k]] + v[k + 1..];
        assert t == [t[0]] + t[1..];
      } else {
        assert v[k..] == [t[0]];
      }
    }
  }

  /** Replacing w by p brings in no occurrence of such a value, and removes w itself altogether. */
  lemma {:induction false} ReplacingAddsNothing(t: string, w: string, p: string, v: string, i: nat)
    requires w != "" && p != "" && v != "" && !Overlaps(v, p)
    requires OccursAt(ReplaceAll(t, w, p), v, i)
    ensures Contains(t, v) && v != w
    decreases |t|
  {
    var out := ReplaceAll(t, w, p);
    if w <= t {
      var rest := ReplaceAll(t[|w|..], w, p);
      if i < |p| {
        InsideOverlaps(v, p, rest, i);
      } else {
        OccursPast(p, rest, v, i);
        ReplacingAddsNothing(t[|w|..], w, p, v, i - |p|);
        OccursLater(w, t[|w|..], v);
        assert t == w + t[|w|..];
      }
    } else if i == 0 {
      assert v[0..] == v && out[0..|v|] == v;
      HeadWasThere(t, w, p, v, 0);
      assert OccursAt(t, v, 0);
    } else {
      var rest := ReplaceAll(t[1..], w, p);
      OccursPast([t[0]], rest, v, i);
      ReplacingAddsNothing(t[1..], w, p, v, i - 1);
      OccursLater([t[0]], t[1..], v);
      assert t == [t[0]] + t[1..];
    }
  }

  lemma ReplacedKeepsOut(t: string, w: string, p: string, v: string)
    requires w != "" && p != "" && v != "" && !Overlaps(v, p)
    requires !Contains(t, v) || v == w
    ensures !Contains(ReplaceAll(t, w, p), v)
  {
    if Contains(ReplaceAll(t, w, p), v) {
      var i :| 0 <= i <= |ReplaceAll(t, w, p)| && OccursAt(ReplaceAll(t, w, p), v, i);
      ReplacingAddsNothing(t, w, p, v, i);
    }
  }

  /**
   Redaction leaves none of the values in the text, whatever the text and
   however the values relate to each other, as long as none can share a place
   with the placeholder.
   */
  lemma {:induction false} RedactedTextHasNoSecret(s: string, secrets: seq<Secret>)
    requires forall i | 0 <= i < |secrets| && secrets[i].value != "" :: !Overlaps(secrets[i].value, PLACEHOLDER)
    ensures forall i | 0 <= i < |secrets| && secrets[i].value != "" :: !Contains(Redacted(s, secrets), secrets[i].value)
    decreases |secrets|
  {
    if secrets != [] {
      var n := |secrets| - 1;
      RedactedTextHasNoSecret(s, secrets[..n]);
      var before, w := Redacted(s, secrets[..n]), secrets[n].value;
      forall i | 0 <= i < |secrets| && secrets[i].value != ""
        ensures !Contains(Redacted(s, secrets), secrets[i].value)
      {
        if i < n {
          assert secrets[..n][i] == secrets[i];
        }
        if w != "" {
          ReplacedKeepsOut(before, w, PLACEHOLDER, secrets[i].value);
        }
      }
    }
  }

  /** A value laid over left + word + right either covers a place of left or right, or lies within word. */
  lemma OverlapIsEdgeOrWord(v: string, left: string, word: string, right: string, star: char, d: int)
    requires v != "" && left != "" && right != ""
    requires forall i | 0 <= i < |left| :: left[i] == star
    requires forall i | 0 <= i < |right| :: right[i] == star
    requires -|v| < d < |left + word + right| && AgreeAt(v, left + word + right, d)
    ensures star in v || Contains(word, v)
  {
    var p, n, end := left + word + right, |left|, |left| + |word|;
    assert forall i | 0 <= i < |p| && (i < n || i >= end) :: p[i] == star;
    if d <= 0 {
      assert v[-d] == p[0];
    } else if d < n || d >= end {
      assert v[0] == p[d];
    } else if d + |v| > end {
      assert v[end - d] == p[end];
    } else {
      assert word[d - n..d - n + |v|] == v by {
        assert forall k | 0 <= k < |v| :: v[k] == p[d + k] == word[d - n + k];
      }
      assert OccursAt(word, v, d - n);
    }
  }

  /** Values without '*' that are no part of the word REDACTED can share no place with the placeholder. */
  lemma PlainValuesDoNotOverlap(v: string)
    requires v != "" && '*' !in v && !Contains("REDACTED", v)
    ensures !Overlaps(v, PLACEHOLDER)
  {
    if Overlaps(v, PLACEHOLDER) {
      var d :| -|v| < d < |PLACEHOLDER| && AgreeAt(v, PLACEHOLDER, d);
      assert PLACEHOLDER == "***" + "REDACTED" + "***";
      OverlapIsEdgeOrWord(v, "***", "REDACTED", "***", '*', d);
    }
  }

  // ---- the condition is exact ----

  lemma {:induction false} TooShortToMatch(t: string, v: string, p: string)
    requires v != "" && |t| < |v|
    ensures ReplaceAll(t, v, p) == t
    decreases |t|
  {
    if t != "" {
      TooShortToMatch(t[1..], v, p);
      assert t == [t[0]] + t[1..];
    }
  }

  /** Text in front of the first match is copied. */
  lemma {:induction false} CopyBeforeMatch(x: string, v: string, p: string, y: string)
    requires v != "" && |y| < |v|
    requires forall j | 0 <= j < |x| :: !(v <= (x + v + y)[j..])
    ensures ReplaceAll(x + v + y, v, p) == x + p + y
    decreases |x|
  {
    var t := x + v + y;
    if x == "" {
      assert t[|v|..] == y;
      TooShortToMatch(y, v, p);
    } else {
      var t' := x[1..] + v + y;
      assert t[1..] == t' && t[0..] == t;
      forall j | 0 <= j < |x[1..]|
        ensures !(v <= t'[j..])
      {
        assert t'[j..] == t[j + 1..];
      }
      CopyBeforeMatch(x[1..], v, p, y);
      assert [t[0]] + (x[1..] + p + y) == x + p + y;
    }
  }

  /** What v has to the left of the places it shares with p, and to the right. */
  function LeftOf(v: string, d: int): string
    requires -|v| < d
  {
    if d < 0 then v[..-d] else ""
  }

  function RightOf(v: string, p: string, d: int): string
    requires d < |p|
  {
    if d + |v| > |p| then v[|p| - d..] else ""
  }

  lemma SharedPlacesRebuild(v: string, p: string, d: int)
    requires v != "" && p != "" && -|v| < d < |p| && AgreeAt(v, p, d)
    ensures Contains(LeftOf(v, d) + p + RightOf(v, p, d), v)
  {
    var out := LeftOf(v, d) + p + RightOf(v, p, d);
    var start := if d < 0 then 0 else d;
    assert start + |v| <= |out|;
    forall k | 0 <= k < |v|
      ensures out[start + k] == v[k]
    {
      if 0 <= d + k < |p| {
        assert v[k] == p[d + k];
      }
    }
    assert out[start..start + |v|] == v;
    assert OccursAt(out, v, start);
  }

  /** A text that redaction turns into one containing the value: v between its own left and right parts. */
  lemma OverlapLeaks(v: string, p: string, d: int)
    requires v != "" && p != "" && -|v| < d < |p| && AgreeAt(v, p, d)
    requires d >= 0 || v[0] != p[0]
    ensures exists t :: Contains(ReplaceAll(t, v, p), v)
  {
    var x, y := LeftOf(v, d), RightOf(v, p, d);
    var t := x + v + y;
    forall j | 0 <= j < |x|
      ensures !(v <= t[j..])
    {
      if v <= t[j..] {
        EarlyMatchStartsAlike(v, p, d, j, y);
      }
    }
    CopyBeforeMatch(x, v, p, y);
    SharedPlacesRebuild(v, p, d);
    assert Contains(ReplaceAll(t, v, p), v);
  }

  lemma EarlyMatchStartsAlike(v: string, p: string, d: int, j: nat, y: string)
    requires p != "" && -|v| < d < 0 && AgreeAt(v, p, d) && j < -d
    requires v <= (v[..-d] + v + y)[j..]
    ensures v[0] == p[0]
  {
    var n := -d;
    var t := v[..n] + v + y;
    assert v[n - j] == t[j..][n - j] == t[n] == v[0] || n - j >= |v|;
    assert v[0] == t[j..][0] == t[j] == v[j];
    assert v[n] == t[j..][n] == t[j + n] == v[j];
    assert v[n] == p[0];
  }

  /**
   For one non-empty value the condition is exact: every text comes out free of
   the value if and only if the value can share no place with the placeholder.
   */
  lemma OneValueIsRemovedExactly(v: string)
    requires v != ""
    ensures (forall t :: !Contains(ReplaceAll(t, v, PLACEHOLDER), v)) <==> !Overlaps(v, PLACEHOLDER)
  {
    if Overlaps(v, PLACEHOLDER) {
      var d :| -|v| < d < |PLACEHOLDER| && AgreeAt(v, PLACEHOLDER, d);
      var last := |PLACEHOLDER| - 1;
      if d < 0 && v[0] == PLACEHOLDER[0] {
        assert PLACEHOLDER[last] == PLACEHOLDER[0];
        assert AgreeAt(v, PLACEHOLDER, last);
        OverlapLeaks(v, PLACEHOLDER, last);
      } else {
        OverlapLeaks(v, PLACEHOLDER, d);
      }
    } else {
      forall t
        ensures !Contains(ReplaceAll(t, v, PLACEHOLDER), v)
      {
        ReplacedKeepsOut(t, v, PLACEHOLDER, v);
      }
    }
  }
}
