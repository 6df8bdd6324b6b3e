/** Reading a failure category out of what `msb` wrote to stderr. */
module Errors {
  import opened Wrappers
  import opened Text
  import opened CreateArgs
  import opened Redact

  datatype Category =
    | SandboxNotFound | SandboxAlreadyExists | SandboxStillRunning
    | VolumeAlreadyExists | VolumeNotFound
    | SnapshotAlreadyExists | SnapshotNotFound

  /** The table, in the order it is searched. */
  const PREFIXES := [
    "sandbox not found:", "sandbox already exists:", "sandbox still running:",
    "volume already exists:", "volume not found:",
    "snapshot already exists:", "snapshot not found:",
    "no logs directory for sandbox"
  ]

  const CATEGORIES := [
    SandboxNotFound, SandboxAlreadyExists, SandboxStillRunning,
    VolumeAlreadyExists, VolumeNotFound,
    SnapshotAlreadyExists, SnapshotNotFound,
    SandboxNotFound
  ]

  const ERROR_PREFIX := "error: "

  datatype Classified = Classified(category: Category, detail: string)

  /** The first row at or after r whose prefix occurs anywhere in s. */
  function RowIn(s: string, r: nat): (found: Option<nat>)
    requires r <= |PREFIXES|
    ensures found.Some? ==> r <= found.value < |PREFIXES| && Contains(s, PREFIXES[found.value])
    ensures forall k | r <= k < (if found.Some? then found.value else |PREFIXES|) :: !Contains(s, PREFIXES[k])
    decreases |PREFIXES| - r
  {
    if r == |PREFIXES| then None
    else if Contains(s, PREFIXES[r]) then Some(r)
    else RowIn(s, r + 1)
  }

  /** The first row at or after r whose prefix s starts with. */
  function RowAt(s: string, r: nat): (found: Option<nat>)
    requires r <= |PREFIXES|
    ensures found.Some? ==> r <= found.value < |PREFIXES| && PREFIXES[found.value] <= s
    ensures forall k | r <= k < (if found.Some? then found.value else |PREFIXES|) :: !(PREFIXES[k] <= s)
    decreases |PREFIXES| - r
  {
    if r == |PREFIXES| then None
    else if PREFIXES[r] <= s then Some(r)
    else RowAt(s, r + 1)
  }

  /** Where part first occurs in s. */
  function IndexOf(s: string, part: string): (i: nat)
    requires Contains(s, part)
    ensures OccursAt(s, part, i)
    ensures forall j | 0 <= j < i :: !OccursAt(s, part, j)
  {
    FirstFrom(s, part, 0)
  }

  function FirstFrom(s: string, part: string, from: nat): (i: nat)
    requires from <= |s| && exists j | from <= j <= |s| :: OccursAt(s, part, j)
    ensures i >= from && OccursAt(s, part, i)
    ensures forall j | from <= j < i :: !OccursAt(s, part, j)
    decreases |s| - from
  {
    if OccursAt(s, part, from) then from else FirstFrom(s, part, from + 1)
  }

  /** classifyError: any occurrence counts, the table's order decides between several. */
  function Classify(stderr: string): Option<Classified> {
    var s := Trim(stderr);
    match RowIn(s, 0)
    case None => None
    case Some(r) => Some(Classified(CATEGORIES[r], Trim(s[IndexOf(s, PREFIXES[r]) + |PREFIXES[r]|..])))
  }

  /** classifyErrorAnchored: only `msb`'s own line at the very start counts. */
  function ClassifyAnchored(stderr: string): Option<Classified> {
    var s := Trim(stderr);
    if !(ERROR_PREFIX <= s) then None
    else
      var rest := s[|ERROR_PREFIX|..];
      match RowAt(rest, 0)
      case None => None
      case Some(r) => Some(Classified(CATEGORIES[r], Trim(rest[|PREFIXES[r]|..])))
  }

  // ---- the table, entry by entry ----

  /** What `msb` says in each failure, and in which order the texts are looked for. */
  predicate Entry(rank: nat, text: string, category: Category) {
    match rank
    case 0 => text == "sandbox not found:" && category == SandboxNotFound
    case 1 => text == "sandbox already exists:" && category == SandboxAlreadyExists
    case 2 => text == "sandbox still running:" && category == SandboxStillRunning
    case 3 => text == "volume already exists:" && category == VolumeAlreadyExists
    case 4 => text == "volume not found:" && category == VolumeNotFound
    case 5 => text == "snapshot already exists:" && category == SnapshotAlreadyExists
    case 6 => text == "snapshot not found:" && category == SnapshotNotFound
    case 7 => text == "no logs directory for sandbox" && category == SandboxNotFound
    case _ => false
  }

  lemma TableHasTheEntries(rank: nat)
    requires rank < |PREFIXES|
    ensures Entry(rank, PREFIXES[rank], CATEGORIES[rank])
  {
  }

  lemma EntriesAreInTheTable(rank: nat, text: string, category: Category)
    requires Entry(rank, text, category)
    ensures rank < |PREFIXES| && PREFIXES[rank] == text && CATEGORIES[rank] == category
  {
  }

  /** The general reading recognises exactly the texts of the table, wherever they occur. */
  lemma RecognisedExactly(stderr: string)
    ensures Classify(stderr).Some? <==>
              exists rank: nat, text, category :: Entry(rank, text, category) && Contains(Trim(stderr), text)
  {
    if Classify(stderr).Some? {
      TableHasTheEntries(RowIn(Trim(stderr), 0).value);
    }
    if rank: nat, text, category :| Entry(rank, text, category) && Contains(Trim(stderr), text) {
      EntriesAreInTheTable(rank, text, category);
    }
  }

  /**
   Of the texts that occur the first of the table decides, and the detail is what
   follows its first occurrence.
   */
  lemma CategoryAndDetail(stderr: string, before: string, after: string, rank: nat, text: string, category: Category)
    requires Entry(rank, text, category) && Trim(stderr) == before + text + after
    requires forall j | 0 <= j < |before| :: !OccursAt(Trim(stderr), text, j)
    requires forall k: nat, other, c | k < rank && Entry(k, other, c) :: !Contains(Trim(stderr), other)
    ensures Classify(stderr) == Some(Classified(category, Trim(after)))
  {
    var s := Trim(stderr);
    EntriesAreInTheTable(rank, text, category);
    assert s[|before|..|before| + |text|] == text;
    assert OccursAt(s, text, |before|) && Contains(s, text);
    var r := RowIn(s, 0).value;
    TableHasTheEntries(r);
    assert r == rank && IndexOf(s, text) == |before|;
    assert s[|before| + |text|..] == after;
  }

  /** `msb`'s own line about the failure, at the very start. */
  predicate OwnLine(s: string, text: string) {
    "error: " + text <= s
  }

  lemma StartsInTwo(p: string, text: string, s: string)
    ensures p + text <= s <==> p <= s && text <= s[|p|..]
  {
    if p + text <= s {
      assert s[|p|..][..|text|] == (p + text)[|p|..] == text;
    }
    if p <= s && text <= s[|p|..] {
      assert s == p + s[|p|..] && s[..|p| + |text|] == p + text;
    }
  }

  lemma OwnLineExactly(s: string, text: string)
    ensures OwnLine(s, text) <==> ERROR_PREFIX <= s && text <= s[|ERROR_PREFIX|..]
  {
    StartsInTwo(ERROR_PREFIX, text, s);
  }

  /** The anchored reading recognises a text of the table only there. */
  lemma AnchoredExactly(stderr: string)
    ensures ClassifyAnchored(stderr).Some? <==>
              exists rank: nat, text, category :: Entry(rank, text, category) && OwnLine(Trim(stderr), text)
  {
    var s := Trim(stderr);
    if ClassifyAnchored(stderr).Some? {
      var r := RowAt(s[|ERROR_PREFIX|..], 0).value;
      TableHasTheEntries(r);
      OwnLineExactly(s, PREFIXES[r]);
    }
    if rank: nat, text, category :| Entry(rank, text, category) && OwnLine(s, text) {
      EntriesAreInTheTable(rank, text, category);
      OwnLineExactly(s, text);
    }
  }

  lemma AnchoredCategoryAndDetail(stderr: string, after: string, rank: nat, text: string, category: Category)
    requires Entry(rank, text, category) && Trim(stderr) == ERROR_PREFIX + text + after
    requires forall k: nat, other, c | k < rank && Entry(k, other, c) :: !OwnLine(Trim(stderr), other)
    ensures ClassifyAnchored(stderr) == Some(Classified(category, Trim(after)))
  {
    var s := Trim(stderr);
    var rest := s[|ERROR_PREFIX|..];
    EntriesAreInTheTable(rank, text, category);
    assert s == ERROR_PREFIX + (text + after);
    assert rest == text + after;
    var r := RowAt(rest, 0).value;
    TableHasTheEntries(r);
    OwnLineExactly(s, PREFIXES[r]);
    assert rest[|text|..] == after;
  }

  /**
   What the anchored reading recognises the general one recognises too, by the
   same row of the table exactly when no earlier row occurs anywhere in the text.
   */
  lemma AnchoredAgainstGeneral(stderr: string)
    requires ClassifyAnchored(stderr).Some?
    ensures var s := Trim(stderr);
            var anchored := RowAt(s[|ERROR_PREFIX|..], 0);
            && anchored.Some?
            && RowIn(s, 0).Some?
            && RowIn(s, 0).value <= anchored.value
            && (RowIn(s, 0) == anchored <==> forall k | 0 <= k < anchored.value :: !Contains(s, PREFIXES[k]))
  {
    var s := Trim(stderr);
    var rest := s[|ERROR_PREFIX|..];
    var r := RowAt(rest, 0).value;
    assert s[|ERROR_PREFIX|..|ERROR_PREFIX| + |PREFIXES[r]|] == PREFIXES[r];
    assert OccursAt(s, PREFIXES[r], |ERROR_PREFIX|);
    assert Contains(s, PREFIXES[r]);
  }

  // ---- classification after redaction ----

  /** An occurrence that shares no place with any occurrence of w survives the replacement of w. */
  lemma {:induction false} ReplacingSpares(t: string, w: string, p: string, v: string, i: nat)
    requires w != "" && v != "" && !Overlaps(w, v) && OccursAt(t, v, i)
    ensures Contains(ReplaceAll(t, w, p), v)
    decreases |t|
  {
    if w <= t {
      if i < |w| {
        MatchOverlaps(t, w, v, i);
      } else {
        assert t == w + t[|w|..];
        OccursPast(w, t[|w|..], v, i);
        ReplacingSpares(t[|w|..], w, p, v, i - |w|);
        OccursLater(p, ReplaceAll(t[|w|..], w, p), v);
      }
    } else if i == 0 {
      HeadIsCopied(t, w, p, v, 0);
      assert ReplaceAll(t, w, p)[0..|v|] == v;
      assert OccursAt(ReplaceAll(t, w, p), v, 0);
    } else {
      assert t == [t[0]] + t[1..];
      OccursPast([t[0]], t[1..], v, i);
      ReplacingSpares(t[1..], w, p, v, i - 1);
      OccursLater([t[0]], ReplaceAll(t[1..], w, p), v);
    }
  }

  lemma MatchOverlaps(t: string, w: string, v: string, i: nat)
    requires w <= t && v != "" && i < |w| && OccursAt(t, v, i)
    ensures Overlaps(w, v)
  {
    forall k | 0 <= k < |w| && 0 <= k - i < |v|
      ensures w[k] == v[k - i]
    {
      assert w[k] == t[k] == t[i..i + |v|][k - i];
    }
    assert AgreeAt(w, v, 0 - i);
  }

  lemma CommonHeadOverlaps(t: string, w: string, v: string, k: nat)
    requires w != "" && w <= t && k < |v| && v[k..] <= t
    ensures Overlaps(w, v)
  {
    forall i | 0 <= i < |w| && 0 <= k + i < |v|
      ensures w[i] == v[k + i]
    {
      assert v[k + i] == v[k..][i] == t[i];
    }
    assert AgreeAt(w, v, k);
  }

  lemma {:induction false} HeadIsCopied(t: string, w: string, p: string, v: string, k: nat)
    requires w != "" && k < |v| && !Overlaps(w, v) && v[k..] <= t
    ensures v[k..] <= ReplaceAll(t, w, p)
    decreases |v| - k
  {
    if w <= t {
      CommonHeadOverlaps(t, w, v, k);
    } else {
      assert t[0] == v[k];
      if k + 1 < |v| {
        assert v[k + 1..] == v[k..][1..];
        HeadIsCopied(t[1..], w, p, v, k + 1);
        assert v[k..] == [v[k]] + v[k + 1..];
      } else {
        assert v[k..] == [v[k]];
      }
    }
  }

  /** Redaction neither makes nor breaks a word that no secret, and not the placeholder, can share a place with. */
  lemma {:induction false} RedactionSpares(s: string, secrets: seq<Secret>, v: string)
    requires v != "" && !Overlaps(v, PLACEHOLDER)
    requires forall i | 0 <= i < |secrets| && secrets[i].value != "" :: !Overlaps(secrets[i].value, v)
    ensures Contains(Redacted(s, secrets), v) <==> Contains(s, v)
    decreases |secrets|
  {
    if secrets != [] {
      var n := |secrets| - 1;
      var before, w := Redacted(s, secrets[..n]), secrets[n].value;
      RedactionSpares(s, secrets[..n], v);
      if w != "" {
        if Contains(before, v) {
          var i :| 0 <= i <= |before| && OccursAt(before, v, i);
          ReplacingSpares(before, w, PLACEHOLDER, v, i);
        } else {
          ReplacedKeepsOut(before, w, PLACEHOLDER, v);
        }
      }
    }
  }

  predicate Solid(v: string) {
    v != "" && !IsSpace(v[0]) && !IsSpace(v[|v| - 1])
  }

  lemma {:induction false} TrimLeftSpares(s: string, v: string)
    requires Solid(v)
    ensures Contains(TrimLeft(s), v) <==> Contains(s, v)
  {
    if s != "" && IsSpace(s[0]) {
      TrimLeftSpares(s[1..], v);
      assert s == [s[0]] + s[1..];
      if Contains(s[1..], v) {
        OccursLater([s[0]], s[1..], v);
      }
      if i :| 0 <= i <= |s| && OccursAt(s, v, i) {
        assert i > 0 by {
          assert s[i] == s[i..i + |v|][0];
        }
        OccursPast([s[0]], s[1..], v, i);
      }
    }
  }

  lemma {:induction false} TrimRightSpares(s: string, v: string)
    requires Solid(v)
    ensures Contains(TrimRight(s), v) <==> Contains(s, v)
  {
    if s != "" && IsSpace(s[|s| - 1]) {
      var shorter := s[..|s| - 1];
      TrimRightSpares(shorter, v);
      if i :| 0 <= i <= |shorter| && OccursAt(shorter, v, i) {
        assert shorter[i..i + |v|] == s[i..i + |v|];
        assert OccursAt(s, v, i);
      }
      if i :| 0 <= i <= |s| && OccursAt(s, v, i) {
        assert i + |v| < |s| by {
          assert v[|v| - 1] == s[i..i + |v|][|v| - 1] == s[i + |v| - 1];
        }
        assert shorter[i..i + |v|] == s[i..i + |v|];
        assert OccursAt(shorter, v, i);
      }
    }
  }

  lemma TrimSpares(s: string, v: string)
    requires Solid(v)
    ensures Contains(Trim(s), v) <==> Contains(s, v)
  {
    TrimLeftSpares(s, v);
    TrimRightSpares(TrimLeft(s), v);
  }

  /** The characters of the table never occur in the placeholder. */
  predicate TableChar(c: char) {
    'a' <= c <= 'z' || c == ' ' || c == ':'
  }

  lemma TableWordsAvoidPlaceholder(v: string)
    requires v != "" && forall i | 0 <= i < |v| :: TableChar(v[i])
    ensures !Overlaps(v, PLACEHOLDER)
  {
    forall d | -|v| < d < |PLACEHOLDER|
      ensures !AgreeAt(v, PLACEHOLDER, d)
    {
      var k := if d < 0 then -d else 0;
      assert v[k] != PLACEHOLDER[d + k];
    }
  }

  lemma PrefixesAreTableWords(r: nat)
    requires r < |PREFIXES|
    ensures Solid(PREFIXES[r]) && forall i | 0 <= i < |PREFIXES[r]| :: TableChar(PREFIXES[r][i])
  {
  }

  /** Two texts with the same rows occurring in them are classified by the same row. */
  lemma {:induction false} SameRow(s: string, t: string, r: nat)
    requires r <= |PREFIXES|
    requires forall k | r <= k < |PREFIXES| :: Contains(s, PREFIXES[k]) <==> Contains(t, PREFIXES[k])
    ensures RowIn(s, r) == RowIn(t, r)
    decreases |PREFIXES| - r
  {
    if r < |PREFIXES| {
      SameRow(s, t, r + 1);
    }
  }

  /**
   Redacting stderr before classifying it leaves the category as it was, as
   long as no secret value can share a place with a category's words.
   */
  lemma RedactionKeepsCategory(s: string, secrets: seq<Secret>)
    requires forall i, r | 0 <= i < |secrets| && secrets[i].value != "" && 0 <= r < |PREFIXES| ::
               !Overlaps(secrets[i].value, PREFIXES[r])
    ensures RowIn(Trim(Redacted(s, secrets)), 0) == RowIn(Trim(s), 0)
    ensures Classify(Redacted(s, secrets)).Some? <==> Classify(s).Some?
    ensures Classify(s).Some? ==> Classify(Redacted(s, secrets)).value.category == Classify(s).value.category
  {
    forall r | 0 <= r < |PREFIXES|
      ensures Contains(Trim(Redacted(s, secrets)), PREFIXES[r]) <==> Contains(Trim(s), PREFIXES[r])
    {
      PrefixesAreTableWords(r);
      TableWordsAvoidPlaceholder(PREFIXES[r]);
      TrimSpares(s, PREFIXES[r]);
      TrimSpares(Redacted(s, secrets), PREFIXES[r]);
      RedactionSpares(s, secrets, PREFIXES[r]);
    }
    SameRow(Trim(Redacted(s, secrets)), Trim(s), 0);
  }

  /** Without that condition the category can be lost: a secret that spells out a prefix takes it with it. */
  lemma CategoryCanBeLost(secret: Secret, r: nat)
    requires r < |PREFIXES| && secret.value == PREFIXES[r]
    ensures Classify(PREFIXES[r]).Some? && Classify(Redacted(PREFIXES[r], [secret])) == None
  {
    var s := PREFIXES[r];
    PrefixesAreTableWords(r);
    assert s[0..|s|] == s && OccursAt(s, s, 0) && Contains(s, s);
    TrimSpares(s, s);
    assert [secret][..0] == [];
    assert s[|s|..] == "";
    assert Redacted(s, [secret]) == PLACEHOLDER + "";
    assert PLACEHOLDER + "" == PLACEHOLDER;
    forall k | 0 <= k < |PREFIXES|
      ensures !Contains(Trim(PLACEHOLDER), PREFIXES[k])
    {
      PrefixesAreTableWords(k);
      TrimSpares(PLACEHOLDER, PREFIXES[k]);
      PlaceholderHasNoTableWord(PREFIXES[k]);
    }
  }

  lemma PlaceholderHasNoTableWord(v: string)
    requires v != "" && forall i | 0 <= i < |v| :: TableChar(v[i])
    ensures !Contains(PLACEHOLDER, v)
  {
    TableWordsAvoidPlaceholder(v);
    assert PLACEHOLDER + "" == PLACEHOLDER;
    if i :| 0 <= i <= |PLACEHOLDER| && OccursAt(PLACEHOLDER, v, i) {
      InsideOverlaps(v, PLACEHOLDER, "", i);
    }
  }
}
