/** When exactly does redacting stderr leave its failure category alone? */
module Sentinels {
  import opened Wrappers
  import opened Text
  import opened CreateArgs
  import opened Redact
  import opened Errors

  // ---- one replaced occurrence ----

  /** Text in front of the first match is copied, and what follows it is replaced on its own. */
  lemma {:induction false} CopyUpToMatch(x: string, v: string, p: string, y: string)
    requires v != "" && forall j | 0 <= j < |x| :: !(v <= (x + v + y)[j..])
    ensures ReplaceAll(x + v + y, v, p) == x + p + ReplaceAll(y, v, p)
    decreases |x|
  {
    var t := x + v + y;
    if x == "" {
      assert t[|v|..] == y;
    } else {
      var t' := x[1..] + v + y;
      assert t[1..] == t' && t[0..] == t;
      forall j | 0 <= j < |x[1..]|
        ensures !(v <= t'[j..])
      {
        assert t'[j..] == t[j + 1..];
      }
      CopyUpToMatch(x[1..], v, p, y);
      assert [t[0]] + (x[1..] + p + ReplaceAll(y, v, p)) == x + p + ReplaceAll(y, v, p);
    }
  }

  lemma OccursOnOneSide(x: string, p: string, z: string, k: string, i: int)
    requires k != "" && p != "" && OccursAt(x + p + z, k, i) && !Overlaps(k, p)
    ensures Contains(x, k) || Contains(z, k)
  {
    var t := x + p + z;
    if i + |k| <= |x| {
      assert x[i..i + |k|] == t[i..i + |k|];
      assert OccursAt(x, k, i);
    } else if i >= |x| + |p| {
      var j := i - |x| - |p|;
      assert z[j..j + |k|] == t[i..i + |k|];
      assert OccursAt(z, k, j);
    } else {
      forall n | 0 <= n < |k| && 0 <= i - |x| + n < |p|
        ensures k[n] == p[i - |x| + n]
      {
        assert k[n] == t[i..i + |k|][n] == t[i + n];
      }
      assert AgreeAt(k, p, i - |x|);
    }
  }

  /** A word that lay across the replaced occurrence, and on neither side of it, is gone. */
  lemma ReplacingCuts(x: string, v: string, p: string, y: string, k: string)
    requires v != "" && p != "" && k != "" && !Overlaps(k, p)
    requires forall j | 0 <= j < |x| :: !(v <= (x + v + y)[j..])
    requires !Contains(x, k) && !Contains(y, k)
    ensures !Contains(ReplaceAll(x + v + y, v, p), k)
  {
    CopyUpToMatch(x, v, p, y);
    var out := ReplaceAll(x + v + y, v, p);
    if i :| 0 <= i <= |out| && OccursAt(out, k, i) {
      OccursOnOneSide(x, p, ReplaceAll(y, v, p), k, i);
      var j :| 0 <= j <= |ReplaceAll(y, v, p)| && OccursAt(ReplaceAll(y, v, p), k, j);
      ReplacingAddsNothing(y, v, p, k, j);
    }
  }

  // ---- the table ----

  lemma ColonEndsAPrefix(r: nat, i: nat)
    requires r < |PREFIXES| && i < |PREFIXES[r]|
    ensures PREFIXES[r][i] == ':' <==> r < 7 && i == |PREFIXES[r]| - 1
  {
  }

  lemma PrefixLengths()
    ensures |PREFIXES| == 8
    ensures |PREFIXES[0]| == 18 && |PREFIXES[1]| == 23 && |PREFIXES[2]| == 22 && |PREFIXES[3]| == 22
    ensures |PREFIXES[4]| == 17 && |PREFIXES[5]| == 24 && |PREFIXES[6]| == 19 && |PREFIXES[7]| == 29
  {
  }

  lemma PrefixLetters(r: nat, i: nat)
    requires r < 7 && 0 < i < 8 && (i == 4 ==> r < 5)
    ensures i < |PREFIXES[r]| && PREFIXES[r][i] != 's' && PREFIXES[r][i] != 'v'
    ensures PREFIXES[r][0] == 's' || PREFIXES[r][0] == 'v'
  {
  }

  /** No prefix of the table lies within another. */
  lemma NoPrefixInAnother(r: nat, k: nat, i: nat)
    requires r < |PREFIXES| && k < |PREFIXES| && OccursAt(PREFIXES[r], PREFIXES[k], i)
    ensures i == 0 && |PREFIXES[k]| == |PREFIXES[r]|
  {
    PrefixLengths();
    var whole, part := PREFIXES[r], PREFIXES[k];
    var last := |part| - 1;
    assert whole[i + last] == whole[i..i + |part|][last] == part[last];
    ColonEndsAPrefix(k, last);
    ColonEndsAPrefix(r, i + last);
    assert whole[i] == whole[i..i + |part|][0] == part[0];
    if i > 0 && k < 7 {
      assert i == |whole| - |part| && i < 8;
      PrefixLetters(r, i);
      PrefixLetters(k, 1);
    }
  }

  lemma OccursWithin(whole: string, part: string, from: nat, word: string, i: nat)
    requires OccursAt(whole, part, from) && OccursAt(part, word, i)
    ensures OccursAt(whole, word, from + i)
  {
    assert forall n | 0 <= n < |word| :: word[n] == part[i..i + |word|][n] == part[i + n];
    assert forall n | 0 <= n < |part| :: part[n] == whole[from..from + |part|][n] == whole[from + n];
    assert whole[from + i..from + i + |word|] == word;
  }

  lemma FoundWithin(whole: string, part: string, from: nat, word: string) returns (i: nat)
    requires OccursAt(whole, part, from) && Contains(part, word)
    ensures OccursAt(whole, word, i)
  {
    var j :| 0 <= j <= |part| && OccursAt(part, word, j);
    i := from + j;
    OccursWithin(whole, part, from, word, j);
  }

  lemma LongerThanPart(part: string, word: string)
    requires Contains(part, word)
    ensures |word| <= |part|
  {
  }

  lemma ProperPartHasNoPrefix(r: nat, part: string, from: nat, k: nat)
    requires r < |PREFIXES| && k < |PREFIXES|
    requires |part| < |PREFIXES[r]| && OccursAt(PREFIXES[r], part, from)
    ensures !Contains(part, PREFIXES[k])
  {
    var whole, word := PREFIXES[r], PREFIXES[k];
    if Contains(part, word) {
      var i := FoundWithin(whole, part, from, word);
      LongerThanPart(part, word);
      NoPrefixInAnother(r, k, i);
    }
  }

  // ---- a text that loses its category ----

  ghost predicate NoPrefixIn(s: string) {
    forall k | 0 <= k < |PREFIXES| :: !Contains(s, PREFIXES[k])
  }

  /** A text holding a prefix whose first replaced occurrence of v cuts it is left with none. */
  lemma CutLeavesNone(x: string, v: string, y: string, r: nat)
    requires v != "" && r < |PREFIXES|
    requires forall j | 0 <= j < |x| :: !(v <= (x + v + y)[j..])
    requires |x| < |PREFIXES[r]| && OccursAt(PREFIXES[r], x, 0)
    requires |y| < |PREFIXES[r]| && OccursAt(PREFIXES[r], y, |PREFIXES[r]| - |y|)
    ensures NoPrefixIn(ReplaceAll(x + v + y, v, PLACEHOLDER))
  {
    forall k | 0 <= k < |PREFIXES|
      ensures !Contains(ReplaceAll(x + v + y, v, PLACEHOLDER), PREFIXES[k])
    {
      ProperPartHasNoPrefix(r, x, 0, k);
      ProperPartHasNoPrefix(r, y, |PREFIXES[r]| - |y|, k);
      PrefixesAreTableWords(k);
      TableWordsAvoidPlaceholder(PREFIXES[k]);
      ReplacingCuts(x, v, PLACEHOLDER, y, PREFIXES[k]);
    }
  }

  /** v overlaps p at d, and at no earlier place within p. */
  ghost predicate FirstOverlap(v: string, p: string, d: int) {
    -|v| < d < |p| && AgreeAt(v, p, d) && forall e | 0 <= e < d :: !AgreeAt(v, p, e)
  }

  lemma FindFirst(v: string, p: string, d: int) returns (first: int)
    requires v != "" && -|v| < d < |p| && AgreeAt(v, p, d)
    ensures FirstOverlap(v, p, first)
    decreases if d < 0 then 0 else d
  {
    first := d;
    if e :| 0 <= e < d && AgreeAt(v, p, e) {
      first := FindFirst(v, p, e);
    }
  }

  /** What p has to the left of the places it shares with v, and to the right. */
  function Before(p: string, d: int): string
    requires d < |p|
  {
    if d > 0 then p[..d] else ""
  }

  function Beyond(p: string, end: nat): string {
    if end < |p| then p[end..] else ""
  }

  /** p occurs in the text at `at`, and every place outside v belongs to it. */
  predicate Spans(x: string, v: string, y: string, p: string, at: int) {
    && OccursAt(x + v + y, p, at)
    && at <= |x| + |v| && at + |p| >= |x|
    && (x != "" ==> at == 0)
    && (y != "" ==> at + |p| == |x + v + y|)
  }

  lemma PrefixSpansOverlap(v: string, p: string, d: int)
    requires v != "" && p != "" && -|v| < d < |p| && AgreeAt(v, p, d)
    ensures Spans(Before(p, d), v, Beyond(p, d + |v|), p, if d < 0 then -d else 0)
  {
    var t := Before(p, d) + v + Beyond(p, d + |v|);
    var at := if d < 0 then -d else 0;
    assert at + |p| <= |t|;
    forall i | 0 <= i < |p|
      ensures t[at + i] == p[i]
    {
      SpannedPlace(v, p, d, i);
    }
    SamePlaces(t, p, at);
  }

  lemma SamePlaces(t: string, p: string, at: nat)
    requires at + |p| <= |t| && forall i | 0 <= i < |p| :: t[at + i] == p[i]
    ensures OccursAt(t, p, at)
  {
    assert t[at..at + |p|] == p;
  }

  lemma SpannedPlace(v: string, p: string, d: int, i: nat)
    requires -|v| < d < |p| && AgreeAt(v, p, d) && i < |p|
    ensures var t, at := Before(p, d) + v + Beyond(p, d + |v|), if d < 0 then -d else 0;
            at + i < |t| && t[at + i] == p[i]
  {
    if d <= i < d + |v| {
      assert v[i - d] == p[i];
    }
  }

  lemma NoMatchBefore(v: string, p: string, d: int, j: nat)
    requires v != "" && FirstOverlap(v, p, d) && j < d
    ensures !(v <= (p[..d] + v + Beyond(p, d + |v|))[j..])
  {
    var t := p[..d] + v + Beyond(p, d + |v|);
    if v <= t[j..] {
      forall k | 0 <= k < |v| && 0 <= j + k < |p|
        ensures v[k] == p[j + k]
      {
        assert v[k] == t[j..][k] == t[j + k];
        SpannedPlace(v, p, d, j + k);
      }
      assert AgreeAt(v, p, j);
    }
  }

  /** A text in which the first replaced occurrence of v cuts p. */
  lemma OverlapCuts(v: string, p: string) returns (x: string, y: string, at: int)
    requires v != "" && p != "" && Overlaps(v, p)
    ensures Spans(x, v, y, p, at)
    ensures forall j | 0 <= j < |x| :: !(v <= (x + v + y)[j..])
    ensures |x| < |p| && OccursAt(p, x, 0)
    ensures |y| < |p| && OccursAt(p, y, |p| - |y|)
  {
    var some :| -|v| < some < |p| && AgreeAt(v, p, some);
    var d := FindFirst(v, p, some);
    x, y, at := Before(p, d), Beyond(p, d + |v|), if d < 0 then -d else 0;
    PrefixSpansOverlap(v, p, d);
    forall j | 0 <= j < |x|
      ensures !(v <= (x + v + y)[j..])
    {
      NoMatchBefore(v, p, d, j);
    }
    assert p[|p| - |y|..] == y;
  }

  /** In such a text a word that cannot share a place with p can only occur within v. */
  lemma OccursWithinValue(x: string, v: string, y: string, p: string, at: int, w: string, i: int)
    requires Spans(x, v, y, p, at) && w != "" && p != "" && !Overlaps(w, p)
    requires OccursAt(x + v + y, w, i)
    ensures Contains(v, w)
  {
    var t := x + v + y;
    if i + |w| <= at || i >= at + |p| {
      assert v[i - |x|..i - |x| + |w|] == t[i..i + |w|];
      assert OccursAt(v, w, i - |x|);
    } else {
      MeetingOverlaps(t, p, at, w, i);
    }
  }

  lemma MeetingOverlaps(t: string, p: string, at: int, w: string, i: int)
    requires OccursAt(t, p, at) && OccursAt(t, w, i) && i + |w| > at && i < at + |p|
    ensures Overlaps(w, p)
  {
    forall k | 0 <= k < |w| && 0 <= i - at + k < |p|
      ensures w[k] == p[i - at + k]
    {
      assert w[k] == t[i..i + |w|][k] == t[i + k];
      assert p[i - at + k] == t[at..at + |p|][i - at + k] == t[i + k];
    }
    assert AgreeAt(w, p, i - at);
  }

  // ---- which secrets matter ----

  /** Secret i can still be met when its turn comes: no earlier value is part of it. */
  ghost predicate Effective(secrets: seq<Secret>, i: nat) {
    && i < |secrets| && secrets[i].value != ""
    && forall j | 0 <= j < i && secrets[j].value != "" :: !Contains(secrets[i].value, secrets[j].value)
  }

  /** Every value in the list has an effective one within it, at its own place or before. */
  lemma {:induction false} HasEffective(secrets: seq<Secret>, i: nat) returns (m: nat)
    requires i < |secrets| && secrets[i].value != ""
    ensures m <= i && Effective(secrets, m) && Contains(secrets[i].value, secrets[m].value)
    decreases i
  {
    if j :| 0 <= j < i && secrets[j].value != "" && Contains(secrets[i].value, secrets[j].value) {
      m := HasEffective(secrets, j);
      ContainsIsTransitive(secrets[i].value, secrets[j].value, secrets[m].value);
    } else {
      m := i;
      assert OccursAt(secrets[i].value, secrets[i].value, 0);
    }
  }

  lemma ContainsIsTransitive(a: string, b: string, c: string)
    requires Contains(a, b) && Contains(b, c)
    ensures Contains(a, c)
  {
    var i :| 0 <= i <= |a| && OccursAt(a, b, i);
    var j :| 0 <= j <= |b| && OccursAt(b, c, j);
    OccursWithin(a, b, i, c, j);
  }

  lemma {:induction false} ReplacingAbsent(s: string, v: string, p: string)
    requires v != "" && !Contains(s, v)
    ensures ReplaceAll(s, v, p) == s
  {
    if s != "" {
      if v <= s {
        assert OccursAt(s, v, 0);
      } else {
        assert [s[0]] + s[1..] == s;
        if Contains(s[1..], v) {
          OccursLater([s[0]], s[1..], v);
        }
        ReplacingAbsent(s[1..], v, p);
      }
    }
  }

  lemma {:induction false} RedactingAbsent(s: string, secrets: seq<Secret>)
    requires forall i | 0 <= i < |secrets| && secrets[i].value != "" :: !Contains(s, secrets[i].value)
    ensures Redacted(s, secrets) == s
    decreases |secrets|
  {
    if secrets != [] {
      var n := |secrets| - 1;
      RedactingAbsent(s, secrets[..n]);
      if secrets[n].value != "" {
        ReplacingAbsent(s, secrets[n].value, PLACEHOLDER);
      }
    }
  }

  /** Redaction never brings a prefix back. */
  lemma {:induction false} NoneComesBack(s: string, secrets: seq<Secret>, n: nat)
    requires n <= |secrets| && NoPrefixIn(Redacted(s, secrets[..n]))
    ensures NoPrefixIn(Redacted(s, secrets))
    decreases |secrets|
  {
    var last := |secrets| - 1;
    if n == |secrets| {
      assert secrets[..n] == secrets;
    } else {
      assert secrets[..last][..n] == secrets[..n];
      NoneComesBack(s, secrets[..last], n);
      if secrets[last].value != "" {
        ReplacingBringsNoneBack(Redacted(s, secrets[..last]), secrets[last].value);
      }
    }
  }

  lemma ReplacingBringsNoneBack(s: string, v: string)
    requires v != "" && NoPrefixIn(s)
    ensures NoPrefixIn(ReplaceAll(s, v, PLACEHOLDER))
  {
    forall k | 0 <= k < |PREFIXES|
      ensures !Contains(ReplaceAll(s, v, PLACEHOLDER), PREFIXES[k])
    {
      PrefixesAreTableWords(k);
      TableWordsAvoidPlaceholder(PREFIXES[k]);
      ReplacedKeepsOut(s, v, PLACEHOLDER, PREFIXES[k]);
    }
  }

  // ---- the exact condition ----

  function CategoryOf(stderr: string): Option<Category> {
    match Classify(stderr)
    case None => None
    case Some(found) => Some(found.category)
  }

  /** Every stderr is put in the same category redacted as it is unredacted. */
  ghost predicate Spares(secrets: seq<Secret>) {
    forall s :: CategoryOf(Redacted(s, secrets)) == CategoryOf(s)
  }

  lemma NoPrefixNoCategory(s: string)
    ensures CategoryOf(s) == None <==> NoPrefixIn(s)
  {
    forall k | 0 <= k < |PREFIXES|
      ensures Contains(Trim(s), PREFIXES[k]) <==> Contains(s, PREFIXES[k])
    {
      PrefixesAreTableWords(k);
      TrimSpares(s, PREFIXES[k]);
    }
  }

  /** The secret can be met, and shares a place with a category's words. */
  ghost predicate Blots(secrets: seq<Secret>, i: nat) {
    Effective(secrets, i) && exists r | 0 <= r < |PREFIXES| :: Overlaps(secrets[i].value, PREFIXES[r])
  }

  lemma FirstBlot(secrets: seq<Secret>, i: nat) returns (first: nat)
    requires Blots(secrets, i)
    ensures Blots(secrets, first) && forall j: nat | j < first :: !Blots(secrets, j)
    decreases i
  {
    first := i;
    if j: nat :| j < i && Blots(secrets, j) {
      first := FirstBlot(secrets, j);
    }
  }

  /** No secret before the first that blots occurs in the text built to lose its category. */
  lemma EarlierSecretsAbsent(secrets: seq<Secret>, i: nat, x: string, y: string, r: nat, at: int, j: nat)
    requires Blots(secrets, i) && (forall k: nat | k < i :: !Blots(secrets, k))
    requires r < |PREFIXES| && PREFIXES[r] != "" && Spans(x, secrets[i].value, y, PREFIXES[r], at)
    requires j < i && secrets[j].value != ""
    ensures !Contains(x + secrets[i].value + y, secrets[j].value)
  {
    var t := x + secrets[i].value + y;
    if Contains(t, secrets[j].value) {
      var m := HasEffective(secrets, j);
      ContainsIsTransitive(t, secrets[j].value, secrets[m].value);
      assert !Blots(secrets, m);
      var n :| 0 <= n <= |t| && OccursAt(t, secrets[m].value, n);
      OccursWithinValue(x, secrets[i].value, y, PREFIXES[r], at, secrets[m].value, n);
    }
  }

  lemma BlotLosesCategory(secrets: seq<Secret>, i: nat)
    requires Blots(secrets, i)
    ensures !Spares(secrets)
  {
    var first := FirstBlot(secrets, i);
    var v := secrets[first].value;
    var r :| 0 <= r < |PREFIXES| && Overlaps(v, PREFIXES[r]);
    PrefixesAreTableWords(r);
    var x, y, at := OverlapCuts(v, PREFIXES[r]);
    var t := x + v + y;
    forall j | 0 <= j < |secrets[..first]| && secrets[..first][j].value != ""
      ensures !Contains(t, secrets[..first][j].value)
    {
      EarlierSecretsAbsent(secrets, first, x, y, r, at, j);
    }
    RedactingAbsent(t, secrets[..first]);
    CutLeavesNone(x, v, y, r);
    assert secrets[..first + 1][..first] == secrets[..first];
    assert Redacted(t, secrets[..first + 1]) == ReplaceAll(t, v, PLACEHOLDER);
    NoneComesBack(t, secrets, first + 1);
    NoPrefixNoCategory(t);
    NoPrefixNoCategory(Redacted(t, secrets));
    assert Contains(t, PREFIXES[r]);
  }

  /** None of the values can share a place with the placeholder. */
  ghost predicate Clean(secrets: seq<Secret>) {
    forall i | 0 <= i < |secrets| && secrets[i].value != "" :: !Overlaps(secrets[i].value, PLACEHOLDER)
  }

  /** No secret that can be met shares a place with w. */
  ghost predicate NoneTouches(secrets: seq<Secret>, w: string) {
    forall i: nat | Effective(secrets, i) :: !Overlaps(secrets[i].value, w)
  }

  lemma NoneTouchesBefore(secrets: seq<Secret>, w: string)
    requires secrets != [] && NoneTouches(secrets, w)
    ensures NoneTouches(secrets[..|secrets| - 1], w)
  {
    var init := secrets[..|secrets| - 1];
    forall i: nat | Effective(init, i)
      ensures !Overlaps(init[i].value, w)
    {
      assert forall j | 0 <= j <= i :: init[j] == secrets[j];
      assert Effective(secrets, i);
    }
  }

  lemma LastSpares(s: string, secrets: seq<Secret>, w: string)
    requires secrets != [] && Clean(secrets) && w != "" && !Overlaps(w, PLACEHOLDER) && NoneTouches(secrets, w)
    ensures Contains(Redacted(s, secrets), w) <==> Contains(Redacted(s, secrets[..|secrets| - 1]), w)
  {
    var n := |secrets| - 1;
    if secrets[n].value != "" {
      if Effective(secrets, n) {
        OneWordSpared(Redacted(s, secrets[..n]), secrets[n].value, w);
      } else {
        IneffectiveIsAbsent(s, secrets);
      }
    }
  }

  lemma {:induction false} WordSpared(s: string, secrets: seq<Secret>, w: string)
    requires Clean(secrets) && w != "" && !Overlaps(w, PLACEHOLDER) && NoneTouches(secrets, w)
    ensures Contains(Redacted(s, secrets), w) <==> Contains(s, w)
    decreases |secrets|
  {
    if secrets != [] {
      NoneTouchesBefore(secrets, w);
      WordSpared(s, secrets[..|secrets| - 1], w);
      LastSpares(s, secrets, w);
    }
  }

  /** A last secret that holds an earlier one finds nothing left to replace. */
  lemma IneffectiveIsAbsent(s: string, secrets: seq<Secret>)
    requires secrets != [] && secrets[|secrets| - 1].value != ""
    requires Clean(secrets) && !Effective(secrets, |secrets| - 1)
    ensures Redacted(s, secrets) == Redacted(s, secrets[..|secrets| - 1])
  {
    var n := |secrets| - 1;
    var before, v := Redacted(s, secrets[..n]), secrets[n].value;
    var j :| 0 <= j < n && secrets[j].value != "" && Contains(v, secrets[j].value);
    RedactedTextHasNoSecret(s, secrets[..n]);
    assert secrets[..n][j] == secrets[j];
    if Contains(before, v) {
      ContainsIsTransitive(before, v, secrets[j].value);
    }
    ReplacingAbsent(before, v, PLACEHOLDER);
  }

  lemma OneWordSpared(s: string, v: string, w: string)
    requires v != "" && w != "" && !Overlaps(v, w) && !Overlaps(w, PLACEHOLDER)
    ensures Contains(ReplaceAll(s, v, PLACEHOLDER), w) <==> Contains(s, w)
  {
    if Contains(s, w) {
      var i :| 0 <= i <= |s| && OccursAt(s, w, i);
      ReplacingSpares(s, v, PLACEHOLDER, w, i);
    } else {
      ReplacedKeepsOut(s, v, PLACEHOLDER, w);
    }
  }

  lemma NoBlotSpares(secrets: seq<Secret>)
    requires Clean(secrets) && forall i: nat :: !Blots(secrets, i)
    ensures Spares(secrets)
  {
    forall s
      ensures CategoryOf(Redacted(s, secrets)) == CategoryOf(s)
    {
      forall k | 0 <= k < |PREFIXES|
        ensures Contains(Trim(Redacted(s, secrets)), PREFIXES[k]) <==> Contains(Trim(s), PREFIXES[k])
      {
        PrefixesAreTableWords(k);
        TableWordsAvoidPlaceholder(PREFIXES[k]);
        forall i: nat | Effective(secrets, i)
          ensures !Overlaps(secrets[i].value, PREFIXES[k])
        {
          assert !Blots(secrets, i);
        }
        WordSpared(s, secrets, PREFIXES[k]);
        TrimSpares(s, PREFIXES[k]);
        TrimSpares(Redacted(s, secrets), PREFIXES[k]);
      }
      SameRow(Trim(Redacted(s, secrets)), Trim(s), 0);
    }
  }

  /**
   Redacting a list of secrets leaves the category of every stderr alone if and
   only if no secret that can be met shares a place with a category's words.
   */
  lemma ListKeepsCategoryExactly(secrets: seq<Secret>)
    requires Clean(secrets)
    ensures Spares(secrets) <==> forall i: nat :: !Blots(secrets, i)
  {
    if i: nat :| Blots(secrets, i) {
      BlotLosesCategory(secrets, i);
    } else {
      NoBlotSpares(secrets);
    }
  }

  /** For one secret the same holds of any value, even one that overlaps the placeholder. */
  lemma RedactionKeepsCategoryExactly(secret: Secret)
    requires secret.value != ""
    ensures Spares([secret]) <==> forall r | 0 <= r < |PREFIXES| :: !Overlaps(secret.value, PREFIXES[r])
  {
    if forall r | 0 <= r < |PREFIXES| :: !Overlaps(secret.value, PREFIXES[r]) {
      forall s
        ensures CategoryOf(Redacted(s, [secret])) == CategoryOf(s)
      {
        RedactionKeepsCategory(s, [secret]);
      }
    } else {
      assert Blots([secret], 0);
      BlotLosesCategory([secret], 0);
    }
  }

  // ---- what the error says ----

  lemma {:induction false} TrimLeftIsSlice(s: string) returns (from: nat)
    ensures from <= |s| && TrimLeft(s) == s[from..]
  {
    from := 0;
    if s != "" && IsSpace(s[0]) {
      from := TrimLeftIsSlice(s[1..]);
      from := from + 1;
    }
  }

  lemma {:induction false} TrimRightIsSlice(s: string) returns (to: nat)
    ensures to <= |s| && TrimRight(s) == s[..to]
  {
    to := |s|;
    if s != "" && IsSpace(s[|s| - 1]) {
      to := TrimRightIsSlice(s[..|s| - 1]);
    }
  }

  lemma SliceHolds(s: string, from: nat, to: nat, v: string)
    requires from <= to <= |s| && Contains(s[from..to], v)
    ensures Contains(s, v)
  {
    var i :| 0 <= i <= to - from && OccursAt(s[from..to], v, i);
    OccursWithin(s, s[from..to], from, v, i);
  }

  lemma TrimHolds(s: string, v: string)
    requires Contains(Trim(s), v)
    ensures Contains(s, v)
  {
    var left := TrimLeft(s);
    var from := TrimLeftIsSlice(s);
    var to := TrimRightIsSlice(left);
    assert left[0..to] == left[..to];
    SliceHolds(left, 0, to, v);
    assert s[from..|s|] == s[from..];
    SliceHolds(s, from, |s|, v);
  }

  /**
   The detail of the error a failed create is classified as, which is what gets
   logged and answered, holds none of the secrets, whatever stderr said.
   */
  lemma DetailHasNoSecret(stderr: string, secrets: seq<Secret>, i: nat)
    requires Clean(secrets) && i < |secrets| && secrets[i].value != ""
    requires Classify(Redacted(stderr, secrets)).Some?
    ensures !Contains(Classify(Redacted(stderr, secrets)).value.detail, secrets[i].value)
  {
    var text, v := Redacted(stderr, secrets), secrets[i].value;
    var s := Trim(text);
    var r := RowIn(s, 0).value;
    var from := IndexOf(s, PREFIXES[r]) + |PREFIXES[r]|;
    RedactedTextHasNoSecret(stderr, secrets);
    if Contains(Trim(s[from..]), v) {
      TrimHolds(s[from..], v);
      assert s[from..|s|] == s[from..];
      SliceHolds(s, from, |s|, v);
      TrimHolds(text, v);
    }
  }
}
