/** Value-safe substitution of variables in a parsed document. */
module Interpolate {
  import opened Wrappers
  import opened Text
  import opened Identifiers

  type Lookup = string -> Option<string>

  /** --set entries first, then the environment, where an empty value counts as undefined. */
  function MakeLookup(set_: map<string, string>, getenv: string -> string): Lookup {
    name =>
      if name in set_ then Some(set_[name])
      else if getenv(name) != "" then Some(getenv(name))
      else None
  }

  // ---------------------------------------------------------------- one scalar

  predicate VariableChar(c: char) {
    Letter(c) || Digit(c) || c == '_'
  }

  predicate IsVariable(name: string) {
    name != "" && !Digit(name[0]) && forall i | 0 <= i < |name| :: VariableChar(name[i])
  }

  function Written(name: string): string {
    ['$', '{'] + name + ['}']
  }

  predicate PlaceholderAt(s: string, i: int, name: string) {
    IsVariable(name) && OccursAt(s, Written(name), i)
  }

  /** ${NAME}, where NAME is a letter or underscore and then letters, digits and underscores. */
  lemma PlaceholderSyntax(s: string, i: nat, name: string)
    ensures PlaceholderAt(s, i, name) <==>
              && name != "" && i + |name| + 3 <= |s|
              && s[i] == '$' && s[i + 1] == '{' && s[i + 2..i + 2 + |name|] == name && s[i + 2 + |name|] == '}'
              && !('0' <= name[0] <= '9')
              && forall k | 0 <= k < |name| ::
                   'A' <= name[k] <= 'Z' || 'a' <= name[k] <= 'z' || '0' <= name[k] <= '9' || name[k] == '_'
  {
    var w, n := Written(name), |name|;
    if i + |w| <= |s| {
      var part := s[i..i + |w|];
      assert part == [s[i], s[i + 1]] + s[i + 2..i + 2 + n] + [s[i + 2 + n]];
      assert w[0] == '$' && w[1] == '{' && w[2..2 + n] == name && w[2 + n] == '}';
      assert part[2..2 + n] == s[i + 2..i + 2 + n];
    }
  }

  function VariableRun(s: string): (n: nat)
    ensures n <= |s| && forall i | 0 <= i < n :: VariableChar(s[i])
    ensures n < |s| ==> !VariableChar(s[n])
  {
    if s == "" || !VariableChar(s[0]) then 0 else 1 + VariableRun(s[1..])
  }

  /** The regular expression anchored at the start of s. */
  function Head(s: string): (r: Option<string>)
    ensures r.Some? ==> PlaceholderAt(s, 0, r.value)
  {
    if |s| < 2 || s[0] != '$' || s[1] != '{' then None
    else
      var n := VariableRun(s[2..]);
      var name := s[2..2 + n];
      if 2 + n < |s| && s[2 + n] == '}' && IsVariable(name) then
        assert s[0..0 + |Written(name)|] == Written(name);
        Some(name)
      else
        None
  }

  lemma HeadFinds(s: string, name: string)
    requires PlaceholderAt(s, 0, name)
    ensures Head(s) == Some(name)
  {
    var w, n := Written(name), VariableRun(s[2..]);
    assert s[0..|w|] == w;
    assert forall i | 0 <= i < |name| :: s[2..][i] == w[2 + i] == name[i];
    assert s[2..][|name|] == w[2 + |name|] == '}';
    assert !VariableChar('}');
    assert n == |name|;
    assert s[2..2 + n] == name;
  }

  lemma PlaceholderMoves(s: string, n: nat, i: int, name: string)
    requires n <= |s| && i >= n
    ensures PlaceholderAt(s, i, name) <==> PlaceholderAt(s[n..], i - n, name)
  {
    var w := Written(name);
    if i + |w| <= |s| {
      assert s[n..][i - n..i - n + |w|] == s[i..i + |w|];
    }
  }

  lemma BeginsWithDollar(s: string, i: nat, name: string)
    requires PlaceholderAt(s, i, name)
    ensures s[i] == '$'
  {
    assert s[i] == s[i..i + |Written(name)|][0];
  }

  lemma HoldsNoOtherDollar(s: string, name: string, i: nat)
    requires PlaceholderAt(s, 0, name) && 0 < i < |Written(name)|
    ensures s[i] != '$'
  {
    assert s[i] == s[0..|Written(name)|][i] == Written(name)[i];
  }

  /** A placeholder has no room for another to begin inside it: only its first character is a dollar. */
  lemma NoneInside(s: string, name: string, i: nat, other: string)
    requires PlaceholderAt(s, 0, name) && 0 < i < |Written(name)|
    ensures !PlaceholderAt(s, i, other)
  {
    HoldsNoOtherDollar(s, name, i);
    if PlaceholderAt(s, i, other) {
      BeginsWithDollar(s, i, other);
    }
  }

  /** ReplaceAllStringFunc: leftmost matches, none overlapping; an undefined name keeps its text. */
  function Expand(s: string, lookup: Lookup): string
    decreases |s|
  {
    if s == "" then ""
    else
      match Head(s)
      case Some(name) => Filling(name, lookup) + Expand(s[|Written(name)|..], lookup)
      case None => [s[0]] + Expand(s[1..], lookup)
  }

  function Filling(name: string, lookup: Lookup): string {
    match lookup(name)
    case Some(v) => v
    case None => Written(name)
  }

  /** The names the scan looks up. */
  function NamesIn(s: string): set<string>
    decreases |s|
  {
    if s == "" then {}
    else
      match Head(s)
      case Some(name) => {name} + NamesIn(s[|Written(name)|..])
      case None => NamesIn(s[1..])
  }

  /** The scan misses no placeholder: it looks up exactly the names that occur as one, anywhere in s. */
  lemma {:induction false} ScanFindsEveryPlaceholder(s: string, name: string)
    ensures name in NamesIn(s) <==> exists i :: PlaceholderAt(s, i, name)
    decreases |s|
  {
    if s != "" {
      var n := if Head(s).Some? then |Written(Head(s).value)| else 1;
      ScanFindsEveryPlaceholder(s[n..], name);
      if i :| PlaceholderAt(s, i, name) {
        if i == 0 {
          HeadFinds(s, name);
        } else if i < n {
          NoneInside(s, Head(s).value, i, name);
        } else {
          PlaceholderMoves(s, n, i, name);
        }
      }
      if name in NamesIn(s[n..]) {
        var j :| PlaceholderAt(s[n..], j, name);
        PlaceholderMoves(s, n, j + n, name);
        assert PlaceholderAt(s, j + n, name);
      }
      if name in NamesIn(s) && name !in NamesIn(s[n..]) {
        assert PlaceholderAt(s, 0, name);
      }
    }
  }

  /** The substitution as the rewrite runs it, noting the undefined names in passing. */
  method ReplaceReferences(s: string, lookup: Lookup, before: map<string, ()>)
    returns (out: string, missing: map<string, ()>)
    ensures out == Expand(s, lookup)
    ensures missing.Keys == before.Keys + Undefined(NamesIn(s), lookup)
  {
    out, missing := "", before;
    var rest := s;
    while rest != ""
      invariant Scanned(s, lookup, before.Keys, out, rest, missing.Keys)
      decreases |rest|
    {
      ScanStep(s, lookup, before.Keys, out, rest, missing.Keys);
      match Head(rest) {
        case None =>
          out, rest := out + [rest[0]], rest[1..];
        case Some(name) =>
          if lookup(name) == None {
            missing := missing[name := ()];
          }
          out, rest := out + Filling(name, lookup), rest[|Written(name)|..];
      }
    }
  }

  /** The scan of s has put out `out`, noted `missing`, and still has `rest` before it. */
  ghost predicate Scanned(
      s: string, lookup: Lookup, before: set<string>, out: string, rest: string, missing: set<string>) {
    && Expand(s, lookup) == out + Expand(rest, lookup)
    && before + Undefined(NamesIn(s), lookup) == missing + Undefined(NamesIn(rest), lookup)
  }

  lemma ScanStep(s: string, lookup: Lookup, before: set<string>, out: string, rest: string, missing: set<string>)
    requires rest != "" && Scanned(s, lookup, before, out, rest, missing)
    ensures Head(rest) == None ==> Scanned(s, lookup, before, out + [rest[0]], rest[1..], missing)
    ensures Head(rest).Some? ==>
              var name := Head(rest).value;
              && 0 < |Written(name)| <= |rest|
              && Scanned(s, lookup, before, out + Filling(name, lookup), rest[|Written(name)|..],
                         missing + if lookup(name) == None then {name} else {})
  {
  }

  ghost function Undefined(names: set<string>, lookup: Lookup): set<string> {
    set name | name in names && lookup(name) == None
  }

  // ------------------------------------------------- a scalar as literals and references

  datatype Piece = Literal(text: string) | Reference(name: string)

  /** The text a list of pieces stands for. */
  function Render(ps: seq<Piece>): string {
    if ps == [] then ""
    else
      (match ps[0]
       case Literal(text) => text
       case Reference(name) => Written(name)) + Render(ps[1..])
  }

  /** The same with every reference filled in. */
  function Fill(ps: seq<Piece>, lookup: Lookup): string {
    if ps == [] then ""
    else
      (match ps[0]
       case Literal(text) => text
       case Reference(name) => Filling(name, lookup)) + Fill(ps[1..], lookup)
  }

  /** No placeholder begins in the first n characters of s. */
  ghost predicate QuietFor(s: string, n: nat) {
    forall i, name | 0 <= i < n :: !PlaceholderAt(s, i, name)
  }

  /** A list of pieces that splits its text the way a reader would: no placeholder begins in a literal. */
  ghost predicate Splits(ps: seq<Piece>) {
    ps != [] ==>
      && (match ps[0]
          case Literal(text) => QuietFor(Render(ps), |text|)
          case Reference(name) => IsVariable(name))
      && Splits(ps[1..])
  }

  lemma QuietWhenHeadless(s: string)
    requires Head(s) == None
    ensures QuietFor(s, 1)
  {
    forall name ensures !PlaceholderAt(s, 0, name) {
      if PlaceholderAt(s, 0, name) {
        HeadFinds(s, name);
      }
    }
  }

  lemma HeadlessAt(s: string, i: nat)
    requires i <= |s| && forall name :: !PlaceholderAt(s, i, name)
    ensures Head(s[i..]) == None
  {
    if Head(s[i..]).Some? {
      PlaceholderMoves(s, i, i, Head(s[i..]).value);
    }
  }

  /** The scan copies the characters no placeholder begins at. */
  lemma {:induction false} ExpandCopies(s: string, n: nat, lookup: Lookup)
    requires n <= |s| && QuietFor(s, n)
    ensures Expand(s, lookup) == s[..n] + Expand(s[n..], lookup)
    decreases n
  {
    if n == 0 {
      assert s[0..] == s;
    } else {
      ExpandCopies(s, n - 1, lookup);
      HeadlessAt(s, n - 1);
      ExpandCopiesOne(s, n - 1, lookup);
      OneFurther(s, n - 1, Expand(s[n..], lookup));
    }
  }

  lemma ExpandCopiesOne(s: string, i: nat, lookup: Lookup)
    requires i < |s| && Head(s[i..]) == None
    ensures Expand(s[i..], lookup) == [s[i]] + Expand(s[i + 1..], lookup)
  {
    assert s[i..][1..] == s[i + 1..];
  }

  lemma OneFurther(s: string, i: nat, rest: string)
    requires i < |s|
    ensures s[..i] + ([s[i]] + rest) == s[..i + 1] + rest
  {
  }

  lemma ExpandKeepsLiteral(text: string, rest: string, lookup: Lookup)
    requires QuietFor(text + rest, |text|)
    ensures Expand(text + rest, lookup) == text + Expand(rest, lookup)
  {
    ExpandCopies(text + rest, |text|, lookup);
    assert (text + rest)[..|text|] == text && (text + rest)[|text|..] == rest;
  }

  lemma ExpandFillsReference(name: string, rest: string, lookup: Lookup)
    requires IsVariable(name)
    ensures Expand(Written(name) + rest, lookup) == Filling(name, lookup) + Expand(rest, lookup)
  {
    var s := Written(name) + rest;
    assert s[0..|Written(name)|] == Written(name);
    HeadFinds(s, name);
    assert s[|Written(name)|..] == rest;
  }

  /**
   Whatever the values are, even ones that look like placeholders or complete
   one with their neighbours, the result is the literals and the values side by side.
   */
  lemma {:induction false} ExpansionIsConcatenation(ps: seq<Piece>, lookup: Lookup)
    requires Splits(ps)
    ensures Expand(Render(ps), lookup) == Fill(ps, lookup)
  {
    if ps != [] {
      ExpansionIsConcatenation(ps[1..], lookup);
      match ps[0]
      case Literal(text) => ExpandKeepsLiteral(text, Render(ps[1..]), lookup);
      case Reference(name) => ExpandFillsReference(name, Render(ps[1..]), lookup);
    }
  }

  lemma SplitsFromHead(s: string, n: nat, p: Piece, rest: seq<Piece>)
    requires n <= |s| && Splits(rest) && Render(rest) == s[n..]
    requires p.Literal? ==> p.text == s[..n] && QuietFor(s, n)
    requires p.Reference? ==> Written(p.name) == s[..n] && IsVariable(p.name)
    ensures Render([p] + rest) == s && Splits([p] + rest)
  {
    var ps := [p] + rest;
    RenderFront(p, rest, s[..n]);
    assert s == s[..n] + s[n..];
    assert ps[0] == p && ps[1..] == rest && Render(ps) == s;
    assert p.Literal? ==> |p.text| == n;
  }

  lemma RenderFront(p: Piece, rest: seq<Piece>, head: string)
    requires head == match p case Literal(text) => text case Reference(name) => Written(name)
    ensures Render([p] + rest) == head + Render(rest)
  {
    assert ([p] + rest)[1..] == rest;
  }

  /** Every text splits. */
  lemma {:induction false} EveryTextSplits(s: string) returns (ps: seq<Piece>)
    ensures Render(ps) == s && Splits(ps)
    decreases |s|
  {
    if s == "" {
      ps := [];
    } else {
      match Head(s)
      case Some(name) =>
        var n := |Written(name)|;
        var rest := EveryTextSplits(s[n..]);
        SplitsFromHead(s, n, Reference(name), rest);
        ps := [Reference(name)] + rest;
      case None =>
        var rest := EveryTextSplits(s[1..]);
        QuietWhenHeadless(s);
        SplitsFromHead(s, 1, Literal(s[..1]), rest);
        ps := [Literal(s[..1])] + rest;
    }
  }

  // ---------------------------------------------------------------- the tree

  datatype Kind = Document | Sequence | Mapping | Scalar | Alias

  /** The presentation of a node: the one the rewrite pins, or any other. */
  datatype Style = DoubleQuoted | Presented(bits: nat)

  const STRING_TAG := "!!str"

  /**
   A node and everything below it, as a value. `anchor` is the name it can be
   referred to by, empty if it has none; the value of an alias is such a name.
   */
  datatype Tree = Tree(kind: Kind, anchor: string, tag: string, style: Style, value: string, content: seq<Tree>)

  predicate Touched(t: Tree) {
    t.kind == Scalar && NamesIn(t.value) != {}
  }

  /** What the walk does to the node itself. */
  function RewrittenAlone(t: Tree, lookup: Lookup): Tree {
    if Touched(t) then
      t.(tag := STRING_TAG, style := DoubleQuoted, value := Expand(t.value, lookup))
    else
      t
  }

  function Rewritten(t: Tree, lookup: Lookup): Tree {
    RewrittenAlone(t, lookup).(content := RewrittenAll(t.content, lookup))
  }

  function RewrittenAll(ts: seq<Tree>, lookup: Lookup): (r: seq<Tree>)
    ensures |r| == |ts| && forall i | 0 <= i < |ts| :: r[i] == Rewritten(ts[i], lookup)
  {
    if ts == [] then [] else RewrittenAll(ts[..|ts| - 1], lookup) + [Rewritten(ts[|ts| - 1], lookup)]
  }

  ghost function NamesBelow(t: Tree): set<string> {
    NamesAt(t) + NamesAmong(t.content)
  }

  ghost function NamesAt(t: Tree): set<string> {
    if t.kind == Scalar then NamesIn(t.value) else {}
  }

  ghost function NamesAmong(ts: seq<Tree>): set<string> {
    if ts == [] then {} else NamesAmong(ts[..|ts| - 1]) + NamesBelow(ts[|ts| - 1])
  }

  lemma {:induction false} NamesAmongExactly(ts: seq<Tree>, name: string)
    ensures name in NamesAmong(ts) <==> exists i | 0 <= i < |ts| :: name in NamesBelow(ts[i])
  {
    if ts != [] {
      var n := |ts| - 1;
      NamesAmongExactly(ts[..n], name);
      assert forall i | 0 <= i < n :: ts[..n][i] == ts[i];
      assert (exists i | 0 <= i < |ts| :: name in NamesBelow(ts[i])) <==>
             (exists i | 0 <= i < n :: name in NamesBelow(ts[..n][i])) || name in NamesBelow(ts[n]);
    }
  }

  /** The node reached by taking the numbered child at each step. */
  function At(t: Tree, path: seq<nat>): Option<Tree>
    decreases path
  {
    if path == [] then Some(t)
    else if path[0] < |t.content| then At(t.content[path[0]], path[1..])
    else None
  }

  /** Does the scalar at path hold a placeholder for name? */
  ghost predicate Refers(t: Tree, path: seq<nat>, name: string) {
    match At(t, path)
    case None => false
    case Some(n) => n.kind == Scalar && exists i :: PlaceholderAt(n.value, i, name)
  }

  /** The rewrite is pointwise: each node depends on the node in the same place and on nothing around it. */
  lemma {:induction false} RewriteIsPointwise(t: Tree, lookup: Lookup, path: seq<nat>)
    ensures At(Rewritten(t, lookup), path) ==
            match At(t, path) case None => None case Some(n) => Some(Rewritten(n, lookup))
    decreases path
  {
    if path != [] && path[0] < |t.content| {
      RewriteIsPointwise(t.content[path[0]], lookup, path[1..]);
    }
  }

  lemma {:induction false} NamesBelowExactly(t: Tree, name: string)
    ensures name in NamesBelow(t) <==> exists path :: Refers(t, path, name)
  {
    ScanFindsEveryPlaceholder(t.value, name);
    NamesAmongExactly(t.content, name);
    forall i | 0 <= i < |t.content|
      ensures name in NamesBelow(t.content[i]) <==> exists path :: Refers(t.content[i], path, name)
    {
      NamesBelowExactly(t.content[i], name);
    }
    if name in NamesBelow(t) {
      if t.kind == Scalar && name in NamesIn(t.value) {
        assert Refers(t, [], name);
      } else {
        assert name in NamesAmong(t.content);
        var i :| 0 <= i < |t.content| && name in NamesBelow(t.content[i]);
        var path :| Refers(t.content[i], path, name);
        assert ([i] + path)[1..] == path;
        assert Refers(t, [i] + path, name);
      }
    }
    if path :| Refers(t, path, name) {
      if path == [] {
        assert name in NamesIn(t.value);
      } else {
        assert Refers(t.content[path[0]], path[1..], name);
        assert name in NamesBelow(t.content[path[0]]);
      }
    }
  }

  lemma TouchedExactly(t: Tree, path: seq<nat>)
    requires At(t, path).Some?
    ensures Touched(At(t, path).value) <==> exists name :: Refers(t, path, name)
  {
    var n := At(t, path).value;
    if Touched(n) {
      var name :| name in NamesIn(n.value);
      ScanFindsEveryPlaceholder(n.value, name);
      assert Refers(t, path, name);
    }
    if name :| Refers(t, path, name) {
      ScanFindsEveryPlaceholder(n.value, name);
      assert name in NamesIn(n.value);
    }
  }

  /**
   What becomes of the node at any path: its kind and its number of children
   stay; without a placeholder nothing of it changes; with one it becomes a
   double-quoted string holding its literal pieces and the values in order.
   */
  lemma OnlyScalarsWithPlaceholdersChange(t: Tree, lookup: Lookup, path: seq<nat>, ps: seq<Piece>)
    ensures At(t, path).Some? <==> At(Rewritten(t, lookup), path).Some?
    ensures At(t, path).Some? ==>
              var was, now := At(t, path).value, At(Rewritten(t, lookup), path).value;
              && now.kind == was.kind && now.anchor == was.anchor
              && |now.content| == |was.content|
              && ((exists name :: Refers(t, path, name)) ==>
                    && now.tag == "!!str" && now.style == DoubleQuoted
                    && (Splits(ps) && Render(ps) == was.value ==> now.value == Fill(ps, lookup)))
              && ((forall name :: !Refers(t, path, name)) ==>
                    now.tag == was.tag && now.style == was.style && now.value == was.value)
  {
    RewriteIsPointwise(t, lookup, path);
    if At(t, path).Some? {
      var was := At(t, path).value;
      TouchedExactly(t, path);
      if Splits(ps) && Render(ps) == was.value {
        ExpansionIsConcatenation(ps, lookup);
      }
    }
  }

  /** No choice of values moves, adds or removes a node, or changes how any node is read. */
  lemma ValuesCannotChangeStructure(t: Tree, f: Lookup, g: Lookup, path: seq<nat>)
    ensures At(Rewritten(t, f), path).Some? <==> At(Rewritten(t, g), path).Some?
    ensures At(Rewritten(t, f), path).Some? ==>
              var a, b := At(Rewritten(t, f), path).value, At(Rewritten(t, g), path).value;
              && a.kind == b.kind && a.anchor == b.anchor && a.tag == b.tag && a.style == b.style
              && |a.content| == |b.content|
              && (a.value == b.value || exists name :: Refers(t, path, name) && f(name) != g(name))
  {
    RewriteIsPointwise(t, f, path);
    RewriteIsPointwise(t, g, path);
    if At(t, path).Some? {
      var n := At(t, path).value;
      if Touched(n) && forall name | name in NamesIn(n.value) :: f(name) == g(name) {
        SameValuesSameText(n.value, f, g);
      } else if Touched(n) {
        var name :| name in NamesIn(n.value) && f(name) != g(name);
        ScanFindsEveryPlaceholder(n.value, name);
        assert Refers(t, path, name);
      }
    }
  }

  lemma {:induction false} SameValuesSameText(s: string, f: Lookup, g: Lookup)
    requires forall name | name in NamesIn(s) :: f(name) == g(name)
    ensures Expand(s, f) == Expand(s, g)
    decreases |s|
  {
    if s != "" {
      SameValuesSameText(s[if Head(s).Some? then |Written(Head(s).value)| else 1..], f, g);
    }
  }

  /** Every reference in the document has a value. */
  ghost predicate Resolves(t: Tree, lookup: Lookup) {
    forall path, name | Refers(t, path, name) :: lookup(name).Some?
  }

  // ---------------------------------------------------------------- in place

  /** A node of the document. The rewrite assigns to three of its fields, wherever it stands. */
  class Node {
    const kind: Kind
    const anchor: string
    var tag: string
    var style: Style
    var value: string
    const content: seq<Node>
    /** This node and all below it. */
    ghost const repr: set<Node>

    /** The nodes form a tree: no two children share a node. */
    ghost predicate Valid()
      decreases repr
    {
      && this in repr
      && (forall i | 0 <= i < |content| ::
            content[i] in repr && content[i].repr < repr && this !in content[i].repr && content[i].Valid())
      && (forall i, j | 0 <= i < j < |content| :: content[i].repr !! content[j].repr)
    }

    ghost function Value(): Tree
      requires Valid()
      reads this, repr
      decreases repr
    {
      Tree(kind, anchor, tag, style, value, Values(repr, content))
    }

    static ghost function Values(within: set<Node>, nodes: seq<Node>): (ts: seq<Tree>)
      requires forall n | n in nodes :: n in within && n.repr < within && n.Valid()
      reads within
      ensures |ts| == |nodes| && forall i | 0 <= i < |nodes| :: ts[i] == nodes[i].Value()
      decreases within, 0, |nodes|
    {
      if nodes == [] then [] else [nodes[0].Value()] + Values(within, nodes[1..])
    }

    constructor (kind: Kind, anchor: string, tag: string, style: Style, value: string, content: seq<Node>)
      requires forall i | 0 <= i < |content| :: content[i].Valid()
      requires forall i, j | 0 <= i < j < |content| :: content[i].repr !! content[j].repr
      ensures Valid() && this.content == content
      ensures (this.kind, this.anchor, this.tag, this.style, this.value) == (kind, anchor, tag, style, value)
    {
      this.kind, this.anchor, this.content := kind, anchor, content;
      this.tag, this.style, this.value := tag, style, value;
      repr := {this} + (set i, n | 0 <= i < |content| && n in content[i].repr :: n);
    }

    /** What changes one child alone changes nothing else below the node. */
    twostate lemma SiblingsKeep(i: nat)
      requires Valid() && i < |content|
      requires forall n | n in repr && n !in content[i].repr :: unchanged(n)
      ensures Value() == old(Value()).(content := old(Value()).content[i := content[i].Value()])
    {
      forall j | 0 <= j < |content| && j != i
        ensures content[j].Value() == old(content[j].Value())
      {
        assert content[j].repr !! content[i].repr;
      }
      assert Value().content == old(Value()).content[i := content[i].Value()];
    }

    /** What changes the node's own fields changes nothing below it. */
    twostate lemma ChildrenKeep()
      requires Valid() && forall n | n in repr && n != this :: unchanged(n)
      ensures Value().content == old(Value()).content
    {
      forall j | 0 <= j < |content|
        ensures content[j].Value() == old(content[j].Value())
      {
        assert this !in content[j].repr;
      }
    }

    /** The node itself, its children untouched. */
    method RewriteHere(lookup: Lookup, before: map<string, ()>) returns (missing: map<string, ()>)
      requires Valid()
      modifies this`value, this`tag, this`style
      ensures Stage(old(Value()), 0, lookup, before.Keys, Value(), missing.Keys)
    {
      ghost var was := Value();
      missing := before;
      if kind == Scalar && NamesIn(value) != {} {
        value, missing := ReplaceReferences(value, lookup, missing);
        tag, style := STRING_TAG, DoubleQuoted;
      }
      ChildrenKeep();
      AtTheRoot(was, lookup, before.Keys, Value(), missing.Keys);
    }

    /** One call of the recursive walk: rewrites the node, then each child, adding to the undefined names. */
    method Walk(lookup: Lookup, before: map<string, ()>) returns (missing: map<string, ()>)
      requires Valid()
      modifies repr`value, repr`tag, repr`style
      ensures Value() == Rewritten(old(Value()), lookup)
      ensures missing.Keys == before.Keys + Undefined(NamesBelow(old(Value())), lookup)
      decreases repr
    {
      ghost var was := Value();
      missing := RewriteHere(lookup, before);
      for i := 0 to |content|
        invariant Stage(was, i, lookup, before.Keys, Value(), missing.Keys)
      {
        ghost var now, sofar := Value(), missing.Keys;
        label descent:
        missing := content[i].Walk(lookup, missing);
        SiblingsKeep@descent(i);
        OneMore(was, i, lookup, before.Keys, now, sofar, Value(), missing.Keys);
      }
      AllDone(was, lookup, before.Keys, Value(), missing.Keys);
    }
  }

  /** The walk of t has dealt with the root and the first n children: what the tree and the undefined names now are. */
  ghost predicate Stage(t: Tree, n: nat, lookup: Lookup, before: set<string>, now: Tree, missing: set<string>) {
    && n <= |t.content|
    && now == RewrittenAlone(t, lookup).(content := RewrittenAll(t.content[..n], lookup) + t.content[n..])
    && missing == before + Undefined(NamesAt(t) + NamesAmong(t.content[..n]), lookup)
  }

  lemma AtTheRoot(t: Tree, lookup: Lookup, before: set<string>, now: Tree, missing: set<string>)
    requires now == RewrittenAlone(t, lookup)
    requires missing == before + Undefined(NamesAt(t), lookup)
    ensures Stage(t, 0, lookup, before, now, missing)
  {
    assert t.content[..0] == [];
    assert now.content == RewrittenAll(t.content[..0], lookup) + t.content[0..];
  }

  lemma OneMore(
      t: Tree, i: nat, lookup: Lookup, before: set<string>,
      now: Tree, missing: set<string>, later: Tree, missingLater: set<string>)
    requires i < |t.content| && Stage(t, i, lookup, before, now, missing)
    requires later == now.(content := now.content[i := Rewritten(now.content[i], lookup)])
    requires missingLater == missing + Undefined(NamesBelow(now.content[i]), lookup)
    ensures Stage(t, i + 1, lookup, before, later, missingLater)
  {
    RewrittenOneMore(t.content, i, lookup);
    NamesOneMore(t.content, i);
    NextOf(RewrittenAll(t.content[..i], lookup), t.content, i, Rewritten(t.content[i], lookup));
  }

  lemma RewrittenOneMore(ts: seq<Tree>, i: nat, lookup: Lookup)
    requires i < |ts|
    ensures RewrittenAll(ts[..i + 1], lookup) == RewrittenAll(ts[..i], lookup) + [Rewritten(ts[i], lookup)]
  {
    assert ts[..i + 1][..i] == ts[..i];
  }

  lemma NamesOneMore(ts: seq<Tree>, i: nat)
    requires i < |ts|
    ensures NamesAmong(ts[..i + 1]) == NamesAmong(ts[..i]) + NamesBelow(ts[i])
  {
    assert ts[..i + 1][..i] == ts[..i];
  }

  lemma NextOf(done: seq<Tree>, ts: seq<Tree>, i: nat, next: Tree)
    requires i < |ts| && |done| == i
    ensures (done + ts[i..])[i] == ts[i]
    ensures (done + ts[i..])[i := next] == done + [next] + ts[i + 1..]
  {
  }

  lemma AllDone(t: Tree, lookup: Lookup, before: set<string>, now: Tree, missing: set<string>)
    requires Stage(t, |t.content|, lookup, before, now, missing)
    ensures now == Rewritten(t, lookup)
    ensures missing == before + Undefined(NamesBelow(t), lookup)
  {
    assert t.content[..|t.content|] == t.content;
  }

  // ---------------------------------------------------------------- the whole document

  datatype Fault = SpecIsEmpty | NotParsed | UndefinedNames(names: seq<string>) | NotEncoded

  /** Nothing but white space. */
  predicate IsBlank(raw: string) {
    Trim(raw) == ""
  }

  /**
   The document rewritten, or what is wrong with it. What the parser makes of
   the raw text, and whether the rewritten nodes can be encoded, are given.
   */
  method Interpolate(raw: string, parsed: Option<Node>, lookup: Lookup, encodes: bool) returns (r: Result<(), Fault>)
    requires parsed.Some? ==> parsed.value.Valid()
    modifies NodesOf(parsed)`value, NodesOf(parsed)`tag, NodesOf(parsed)`style
    ensures IsBlank(raw) ==> r == Failure(SpecIsEmpty) && TreeOf(parsed) == old(TreeOf(parsed))
    ensures !IsBlank(raw) && parsed == None ==> r == Failure(NotParsed)
    ensures !IsBlank(raw) && parsed.Some? ==>
              && TreeOf(parsed) == Some(Rewritten(old(TreeOf(parsed)).value, lookup))
              && Answers(old(TreeOf(parsed)).value, lookup, encodes, r)
  {
    if IsBlank(raw) {
      return Failure(SpecIsEmpty);
    }
    if parsed == None {
      return Failure(NotParsed);
    }
    r := InterpolateParsed(parsed.value, lookup, encodes);
  }

  method InterpolateParsed(doc: Node, lookup: Lookup, encodes: bool) returns (r: Result<(), Fault>)
    requires doc.Valid()
    modifies doc.repr`value, doc.repr`tag, doc.repr`style
    ensures doc.Value() == Rewritten(old(doc.Value()), lookup)
    ensures Answers(old(doc.Value()), lookup, encodes, r)
  {
    ghost var was := doc.Value();
    var missing := doc.Walk(lookup, map[]);
    UndefinedExactly(was, lookup);
    if |missing| > 0 {
      var names := SortedKeys(missing);
      return Failure(UndefinedNames(names));
    }
    r := if encodes then Success(()) else Failure(NotEncoded);
  }

  ghost function NodesOf(parsed: Option<Node>): set<Node> {
    if parsed.Some? then parsed.value.repr else {}
  }

  ghost function TreeOf(parsed: Option<Node>): Option<Tree>
    requires parsed.Some? ==> parsed.value.Valid()
    reads NodesOf(parsed)
  {
    if parsed.Some? then assert parsed.value in NodesOf(parsed); Some(parsed.value.Value()) else None
  }

  /** The answer for a document that parsed: success exactly if every name resolves, else the undefined ones in order. */
  ghost predicate Answers(t: Tree, lookup: Lookup, encodes: bool, r: Result<(), Fault>) {
    if Resolves(t, lookup) then r == if encodes then Success(()) else Failure(NotEncoded)
    else r.Failure? && r.error.UndefinedNames? && Sorted(r.error.names) && ListsUndefined(t, lookup, r.error.names)
  }

  /** The names are the undefined ones the document refers to, all of them and no others. */
  ghost predicate ListsUndefined(t: Tree, lookup: Lookup, names: seq<string>) {
    forall name :: name in names <==> lookup(name) == None && exists path :: Refers(t, path, name)
  }

  lemma UndefinedExactly(t: Tree, lookup: Lookup)
    ensures Resolves(t, lookup) <==> Undefined(NamesBelow(t), lookup) == {}
    ensures forall names: seq<string> | (forall name :: name in names <==> name in Undefined(NamesBelow(t), lookup)) ::
              ListsUndefined(t, lookup, names)
  {
    forall name ensures name in NamesBelow(t) <==> exists path :: Refers(t, path, name) {
      NamesBelowExactly(t, name);
    }
    if name :| name in Undefined(NamesBelow(t), lookup) {
      var path :| Refers(t, path, name);
    }
    if !Resolves(t, lookup) {
      var path, name :| Refers(t, path, name) && lookup(name) == None;
      assert name in Undefined(NamesBelow(t), lookup);
    }
  }

  /** The literals with, for each reference, its --set entry, or without one what the environment has. */
  function Filled(ps: seq<Piece>, set_: map<string, string>, getenv: string -> string): string {
    if ps == [] then ""
    else
      (match ps[0]
       case Literal(text) => text
       case Reference(name) => if name in set_ then set_[name] else getenv(name)) + Filled(ps[1..], set_, getenv)
  }

  /** If t has a scalar at path that splits into ps: is what now stands there its literals and the references' values? */
  ghost predicate SubstitutedAt(t: Tree, now: Tree, path: seq<nat>, ps: seq<Piece>,
                                set_: map<string, string>, getenv: string -> string) {
    match At(t, path)
    case None => true
    case Some(n) =>
      n.kind == Scalar && Splits(ps) && Render(ps) == n.value ==>
        At(now, path).Some? && At(now, path).value.value == Filled(ps, set_, getenv)
  }

  ghost predicate Substituted(t: Tree, now: Tree, set_: map<string, string>, getenv: string -> string) {
    forall path, ps :: SubstitutedAt(t, now, path, ps, set_, getenv)
  }

  lemma OccursInFront(name: string, rest: string)
    requires IsVariable(name)
    ensures PlaceholderAt(Written(name) + rest, 0, name)
  {
    assert (Written(name) + rest)[0..|Written(name)|] == Written(name);
  }

  lemma OccursFurtherOn(front: string, rest: string, k: nat, name: string)
    requires PlaceholderAt(rest, k, name)
    ensures PlaceholderAt(front + rest, |front| + k, name)
  {
    assert (front + rest)[|front|..] == rest;
    PlaceholderMoves(front + rest, |front|, |front| + k, name);
  }

  /** The name of every reference of a split occurs in the text as a placeholder. */
  lemma {:induction false} ReferencesOccur(ps: seq<Piece>, i: nat) returns (k: nat)
    requires Splits(ps) && i < |ps| && ps[i].Reference?
    ensures PlaceholderAt(Render(ps), k, ps[i].name)
    decreases |ps|
  {
    if i == 0 {
      k := 0;
      OccursInFront(ps[0].name, Render(ps[1..]));
    } else {
      var front := match ps[0] case Literal(text) => text case Reference(name) => Written(name);
      k := ReferencesOccur(ps[1..], i - 1);
      OccursFurtherOn(front, Render(ps[1..]), k, ps[i].name);
      k := |front| + k;
    }
  }

  lemma {:induction false} FillFromCommandLine(ps: seq<Piece>, set_: map<string, string>, getenv: string -> string)
    requires forall i | 0 <= i < |ps| && ps[i].Reference? :: ps[i].name in set_ || getenv(ps[i].name) != ""
    ensures Fill(ps, MakeLookup(set_, getenv)) == Filled(ps, set_, getenv)
  {
    if ps != [] {
      assert forall i | 0 <= i < |ps| - 1 :: ps[1..][i] == ps[i + 1];
      FillFromCommandLine(ps[1..], set_, getenv);
    }
  }

  lemma {:induction false} LiteralsStay(ps: seq<Piece>, lookup: Lookup)
    requires forall i | 0 <= i < |ps| :: ps[i].Literal?
    ensures Fill(ps, lookup) == Render(ps)
  {
    if ps != [] {
      LiteralsStay(ps[1..], lookup);
    }
  }

  /** One scalar whose every reference has a value. */
  lemma ScalarIsFilled(ps: seq<Piece>, set_: map<string, string>, getenv: string -> string)
    requires Splits(ps)
    requires forall k, name | PlaceholderAt(Render(ps), k, name) :: name in set_ || getenv(name) != ""
    ensures Fill(ps, MakeLookup(set_, getenv)) == Filled(ps, set_, getenv)
    ensures (forall k, name :: !PlaceholderAt(Render(ps), k, name)) ==> Filled(ps, set_, getenv) == Render(ps)
  {
    forall i | 0 <= i < |ps| && ps[i].Reference?
      ensures exists k: nat :: PlaceholderAt(Render(ps), k, ps[i].name)
    {
      var _ := ReferencesOccur(ps, i);
    }
    FillFromCommandLine(ps, set_, getenv);
    if forall k, name :: !PlaceholderAt(Render(ps), k, name) {
      LiteralsStay(ps, MakeLookup(set_, getenv));
    }
  }

  lemma ScalarAtIsFilled(t: Tree, set_: map<string, string>, getenv: string -> string, path: seq<nat>, ps: seq<Piece>)
    requires forall name | Refers(t, path, name) :: name in set_ || getenv(name) != ""
    ensures SubstitutedAt(t, Rewritten(t, MakeLookup(set_, getenv)), path, ps, set_, getenv)
  {
    if At(t, path).Some? && At(t, path).value.kind == Scalar && Splits(ps) && Render(ps) == At(t, path).value.value {
      OnlyScalarsWithPlaceholdersChange(t, MakeLookup(set_, getenv), path, ps);
      forall k, name | PlaceholderAt(Render(ps), k, name)
        ensures Refers(t, path, name)
      {
      }
      ScalarIsFilled(ps, set_, getenv);
    }
  }

  /** With a value for every reference, rewriting substitutes exactly those values. */
  lemma RewritingSubstitutes(t: Tree, set_: map<string, string>, getenv: string -> string)
    requires forall path, name | Refers(t, path, name) :: name in set_ || getenv(name) != ""
    ensures Substituted(t, Rewritten(t, MakeLookup(set_, getenv)), set_, getenv)
  {
    forall path, ps
      ensures SubstitutedAt(t, Rewritten(t, MakeLookup(set_, getenv)), path, ps, set_, getenv)
    {
      ScalarAtIsFilled(t, set_, getenv, path, ps);
    }
  }

  /** As the command line calls it: a reference resolves if --set gives it a value or the environment a non-blank one. */
  method InterpolateFor(raw: string, parsed: Option<Node>, set_: map<string, string>, getenv: string -> string,
                        encodes: bool)
    returns (r: Result<(), Fault>)
    requires parsed.Some? ==> parsed.value.Valid()
    modifies NodesOf(parsed)`value, NodesOf(parsed)`tag, NodesOf(parsed)`style
    ensures r.Success? <==>
            && !IsBlank(raw)
            && parsed.Some?
            && encodes
            && forall path, name | Refers(old(TreeOf(parsed)).value, path, name) :: name in set_ || getenv(name) != ""
    ensures r.Success? ==> TreeOf(parsed) == Some(Rewritten(old(TreeOf(parsed)).value, MakeLookup(set_, getenv)))
    ensures r.Success? ==> Substituted(old(TreeOf(parsed)).value, TreeOf(parsed).value, set_, getenv)
    ensures r.Failure? && r.error.UndefinedNames? ==>
              parsed.Some? && forall name :: name in r.error.names <==>
                name !in set_ && getenv(name) == "" && exists path :: Refers(old(TreeOf(parsed)).value, path, name)
  {
    ghost var was := TreeOf(parsed);
    r := Interpolate(raw, parsed, MakeLookup(set_, getenv), encodes);
    if r.Success? {
      RewritingSubstitutes(was.value, set_, getenv);
    }
  }

  /** Where --set has an entry the environment makes no difference. */
  lemma SetOverridesEnvironment(
      t: Tree, set_: map<string, string>, env1: string -> string, env2: string -> string)
    requires forall path, name | Refers(t, path, name) :: name in set_ || env1(name) == env2(name)
    ensures Rewritten(t, MakeLookup(set_, env1)) == Rewritten(t, MakeLookup(set_, env2))
  {
    forall name | name in NamesBelow(t)
      ensures MakeLookup(set_, env1)(name) == MakeLookup(set_, env2)(name)
    {
      NamesBelowExactly(t, name);
    }
    SameValuesSameTree(t, MakeLookup(set_, env1), MakeLookup(set_, env2));
  }

  lemma {:induction false} SameValuesSameTree(t: Tree, f: Lookup, g: Lookup)
    requires forall name | name in NamesBelow(t) :: f(name) == g(name)
    ensures Rewritten(t, f) == Rewritten(t, g)
  {
    if t.kind == Scalar {
      SameValuesSameText(t.value, f, g);
    }
    forall i | 0 <= i < |t.content|
      ensures Rewritten(t.content[i], f) == Rewritten(t.content[i], g)
    {
      forall name | name in NamesBelow(t.content[i]) ensures name in NamesBelow(t) {
        NamesAmongExactly(t.content, name);
      }
      SameValuesSameTree(t.content[i], f, g);
    }
    assert Rewritten(t, f).content == Rewritten(t, g).content;
  }
}
