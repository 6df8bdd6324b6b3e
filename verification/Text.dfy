/**
 Strings as the code handles them: byte strings, one `char` per byte, with the
 few library operations it calls.
 */
module Text {
  import opened Wrappers

  /** Does `part` occur in `s` at index `i`? */
  predicate OccursAt(s: string, part: string, i: int) {
    0 <= i <= |s| - |part| && s[i..i + |part|] == part
  }

  predicate Contains(s: string, part: string) {
    exists i | 0 <= i <= |s| :: OccursAt(s, part, i)
  }

  /** Go's strings.Cut at the first `c`. */
  function SplitFirst(s: string, c: char): (r: Option<(string, string)>)
    ensures r == None <==> c !in s
    ensures r.Some? ==> s == r.value.0 + [c] + r.value.1 && c !in r.value.0
  {
    if s == "" then None
    else if s[0] == c then Some(("", s[1..]))
    else
      match SplitFirst(s[1..], c)
      case None => None
      case Some((before, after)) => Some(([s[0]] + before, after))
  }

  function SplitLast(s: string, c: char): (r: Option<(string, string)>)
    ensures r == None <==> c !in s
    ensures r.Some? ==> s == r.value.0 + [c] + r.value.1 && c !in r.value.1
  {
    if s == "" then None
    else if s[|s| - 1] == c then Some((s[..|s| - 1], ""))
    else
      match SplitLast(s[..|s| - 1], c)
      case None => None
      case Some((before, after)) => Some((before, after + [s[|s| - 1]]))
  }

  lemma {:induction false} SplitFirstOf(before: string, c: char, after: string)
    requires c !in before
    ensures SplitFirst(before + [c] + after, c) == Some((before, after))
  {
    var s := before + [c] + after;
    if before != "" {
      assert s[1..] == before[1..] + [c] + after;
      SplitFirstOf(before[1..], c, after);
      assert [s[0]] + before[1..] == before;
    } else {
      assert s[1..] == after;
    }
  }

  lemma {:induction false} SplitLastOf(before: string, c: char, after: string)
    requires c !in after
    ensures SplitLast(before + [c] + after, c) == Some((before, after))
  {
    var s := before + [c] + after;
    if after != "" {
      var shorter := after[..|after| - 1];
      assert s[..|s| - 1] == before + [c] + shorter;
      SplitLastOf(before, c, shorter);
      assert shorter + [s[|s| - 1]] == after;
    } else {
      assert s[..|s| - 1] == before;
    }
  }

  /** strings.ReplaceAll for a non-empty `old`: leftmost matches, none overlapping, output never rescanned. */
  function ReplaceAll(s: string, old_: string, new_: string): string
    requires old_ != ""
    decreases |s|
  {
    if s == "" then ""
    else if old_ <= s then new_ + ReplaceAll(s[|old_|..], old_, new_)
    else [s[0]] + ReplaceAll(s[1..], old_, new_)
  }

  predicate IsSpace(c: char) {
    c == ' ' || '\t' <= c <= '\r'
  }

  function TrimLeft(s: string): string {
    if s != "" && IsSpace(s[0]) then TrimLeft(s[1..]) else s
  }

  function TrimRight(s: string): string {
    if s != "" && IsSpace(s[|s| - 1]) then TrimRight(s[..|s| - 1]) else s
  }

  /** strings.TrimSpace on ASCII text. */
  function Trim(s: string): string {
    TrimRight(TrimLeft(s))
  }

  predicate White(c: char) {
    c in {' ', '\t', '\n', '\U{0B}', '\U{0C}', '\r'}
  }

  predicate AllWhite(s: string) {
    forall i | 0 <= i < |s| :: White(s[i])
  }

  lemma SpaceIsWhite(c: char)
    ensures IsSpace(c) <==> White(c)
  {
  }

  /** Trimming takes white space off both ends and nothing else. */
  lemma TrimExactly(s: string) returns (left: string, right: string)
    ensures s == left + Trim(s) + right && AllWhite(left) && AllWhite(right)
    ensures Trim(s) != "" ==> !White(Trim(s)[0]) && !White(Trim(s)[|Trim(s)| - 1])
  {
    left := TrimLeftExactly(s);
    right := TrimRightExactly(TrimLeft(s));
  }

  lemma {:induction false} TrimLeftExactly(s: string) returns (left: string)
    ensures s == left + TrimLeft(s) && AllWhite(left)
    ensures TrimLeft(s) != "" ==> !White(TrimLeft(s)[0])
  {
    left := "";
    if s != "" {
      SpaceIsWhite(s[0]);
      if IsSpace(s[0]) {
        left := TrimLeftExactly(s[1..]);
        left := [s[0]] + left;
      }
    }
  }

  lemma {:induction false} TrimRightExactly(s: string) returns (right: string)
    ensures s == TrimRight(s) + right && AllWhite(right)
    ensures TrimRight(s) != "" ==> !White(TrimRight(s)[|TrimRight(s)| - 1])
  {
    right := "";
    if s != "" {
      var n := |s| - 1;
      SpaceIsWhite(s[n]);
      if IsSpace(s[n]) {
        right := TrimRightExactly(s[..n]);
        right := right + [s[n]];
      }
    }
  }

  /** Byte-wise lexicographic order: the order sort.Strings sorts by. */
  predicate Less(a: string, b: string) {
    if b == "" then false
    else if a == "" then true
    else if a[0] != b[0] then a[0] < b[0]
    else Less(a[1..], b[1..])
  }

  /** a comes first where the two differ first, or is a proper beginning of b. */
  lemma {:induction false} LessExactly(a: string, b: string)
    ensures Less(a, b) <==> exists n | 0 <= n <= |a| :: FirstDifference(a, b, n)
  {
    if a != "" && b != "" && a[0] == b[0] {
      LessExactly(a[1..], b[1..]);
      forall n | 0 < n <= |a|
        ensures FirstDifference(a, b, n) <==> FirstDifference(a[1..], b[1..], n - 1)
      {
        if n <= |b| {
          assert a[..n] == [a[0]] + a[1..][..n - 1] && b[..n] == [b[0]] + b[1..][..n - 1];
        }
      }
      if m :| 0 <= m <= |a[1..]| && FirstDifference(a[1..], b[1..], m) {
        assert FirstDifference(a, b, m + 1);
      }
    } else if Less(a, b) {
      assert FirstDifference(a, b, 0);
    }
  }

  predicate FirstDifference(a: string, b: string, n: int) {
    0 <= n <= |a| && n < |b| && a[..n] == b[..n] && (n < |a| ==> a[n] < b[n])
  }

  lemma {:induction false} LessIsTransitive(a: string, b: string, c: string)
    requires Less(a, b) && Less(b, c)
    ensures Less(a, c)
  {
    if a != "" && a[0] == b[0] && b[0] == c[0] {
      LessIsTransitive(a[1..], b[1..], c[1..]);
    }
  }

  lemma {:induction false} LessIsTotal(a: string, b: string)
    ensures Less(a, b) || a == b || Less(b, a)
    ensures !(Less(a, b) && Less(b, a))
    ensures Less(a, b) ==> a != b
  {
    if a != "" && b != "" && a[0] == b[0] {
      LessIsTotal(a[1..], b[1..]);
      assert a == [a[0]] + a[1..] && b == [b[0]] + b[1..];
    }
  }

  ghost predicate Sorted(ks: seq<string>) {
    forall i, j | 0 <= i < j < |ks| :: Less(ks[i], ks[j])
  }

  /** Strictly sorted lists of the same strings are the same list. */
  lemma {:induction false} SortedIsUnique(a: seq<string>, b: seq<string>)
    requires Sorted(a) && Sorted(b)
    requires forall k :: k in a <==> k in b
    ensures a == b
    decreases |a|
  {
    if a == [] || b == [] {
      var k := if a != [] then a[0] else if b != [] then b[0] else "";
      assert k in a <==> k in b;
    } else {
      assert a[0] in b;
      assert b[0] in a;
      LessIsTotal(a[0], b[0]);
      forall k | k in a[1..]
        ensures k in b[1..]
      {
        assert k in a;
        LessIsTotal(a[0], k);
      }
      forall k | k in b[1..]
        ensures k in a[1..]
      {
        assert k in b;
        LessIsTotal(b[0], k);
      }
      SortedIsUnique(a[1..], b[1..]);
      assert a == [a[0]] + a[1..] && b == [b[0]] + b[1..];
    }
  }

  function InsertSorted(ks: seq<string>, k: string): (r: seq<string>)
    requires Sorted(ks) && k !in ks
    ensures Sorted(r)
    ensures forall x :: x in r <==> x == k || x in ks
  {
    if ks == [] then [k]
    else if Less(k, ks[0]) then
      assert forall i | 0 <= i < |ks| :: Less(k, ks[i]) by {
        forall i | 0 < i < |ks| ensures Less(k, ks[i]) {
          LessIsTransitive(k, ks[0], ks[i]);
        }
      }
      [k] + ks
    else
      var rest := InsertSorted(ks[1..], k);
      assert forall x | x in rest :: Less(ks[0], x) by {
        LessIsTotal(k, ks[0]);
      }
      [ks[0]] + rest
  }

  /** The strings of a set in order. */
  ghost function InOrder(keys: set<string>): (ks: seq<string>)
    ensures Sorted(ks)
    ensures forall k :: k in ks <==> k in keys
  {
    if keys == {} then []
    else
      var k :| k in keys;
      InsertSorted(InOrder(keys - {k}), k)
  }

  /** Collect the keys of a map, in whatever order it yields them, and sort them. */
  method SortedKeys<V>(m: map<string, V>) returns (ks: seq<string>)
    ensures ks == InOrder(m.Keys)
    ensures Sorted(ks) && (forall k :: k in ks <==> k in m)
  {
    ks := [];
    var unseen := m.Keys;
    while unseen != {}
      invariant unseen <= m.Keys
      invariant Sorted(ks)
      invariant forall k :: k in ks <==> k in m && k !in unseen
      decreases |unseen|
    {
      var k :| k in unseen;
      unseen := unseen - {k};
      ks := InsertSorted(ks, k);
    }
    SortedIsUnique(ks, InOrder(m.Keys));
  }

  predicate IsDigit(c: char) {
    '0' <= c <= '9'
  }

  predicate AllDigits(s: string) {
    forall i | 0 <= i < |s| :: IsDigit(s[i])
  }

  /** strconv.Itoa on a natural number. */
  function Decimal(n: nat): (s: string)
    ensures s != "" && AllDigits(s)
  {
    var digit := ('0' as int + n % 10) as char;
    if n < 10 then [digit] else Decimal(n / 10) + [digit]
  }

  function Itoa(n: int): string {
    if n < 0 then "-" + Decimal(-n) else Decimal(n)
  }

  /** The number a digit string denotes; leading zeros count for nothing. */
  function Value(s: string): nat
    requires AllDigits(s)
  {
    if s == "" then 0 else 10 * Value(s[..|s| - 1]) + (s[|s| - 1] as int - '0' as int)
  }

  /** One more digit on the right is ten times as much and the digit. */
  lemma DecimalPlaces(s: string, d: nat)
    requires AllDigits(s) && d < 10
    ensures AllDigits(s + ["0123456789"[d]]) && Value(s + ["0123456789"[d]]) == 10 * Value(s) + d
  {
    var longer := s + ["0123456789"[d]];
    assert longer[..|longer| - 1] == s;
  }

  lemma {:induction false} DecimalRoundTrip(n: nat)
    ensures Value(Decimal(n)) == n
  {
    var s := Decimal(n);
    if n >= 10 {
      DecimalRoundTrip(n / 10);
      assert s[..|s| - 1] == Decimal(n / 10);
    } else {
      assert s[..|s| - 1] == "";
    }
  }
}
