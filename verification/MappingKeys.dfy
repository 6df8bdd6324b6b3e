/**
 What interpolation does to the keys of mappings, aliases followed. A key is a
 node like any other to the rewrite, and it may be an alias of one.
 */
module MappingKeys {
  import opened Wrappers
  import opened Interpolate

  // ---- aliases ----

  /** Document order: a node comes before its children, and an earlier child before a later one. */
  predicate Precedes(p: seq<nat>, q: seq<nat>) {
    if q == [] then false
    else if p == [] then true
    else if p[0] != q[0] then p[0] < q[0]
    else Precedes(p[1..], q[1..])
  }

  lemma {:induction false} PrecedesIsTotal(p: seq<nat>, q: seq<nat>)
    ensures Precedes(p, q) || p == q || Precedes(q, p)
    ensures !(Precedes(p, q) && Precedes(q, p))
  {
    if p != [] && q != [] && p[0] == q[0] {
      PrecedesIsTotal(p[1..], q[1..]);
      assert p == [p[0]] + p[1..] && q == [q[0]] + q[1..];
    }
  }

  predicate Anchored(doc: Tree, path: seq<nat>, name: string) {
    name != "" && At(doc, path).Some? && At(doc, path).value.anchor == name
  }

  predicate IsAlias(doc: Tree, path: seq<nat>) {
    At(doc, path).Some? && At(doc, path).value.kind == Alias
  }

  /** An alias stands for the nearest node before it that carries its name (section 7.1 of YAML 1.2.2). */
  ghost predicate StandsFor(doc: Tree, path: seq<nat>, target: seq<nat>) {
    && IsAlias(doc, path)
    && Anchored(doc, target, At(doc, path).value.value)
    && Precedes(target, path)
    && forall q | Anchored(doc, q, At(doc, path).value.value) && Precedes(q, path) :: q == target || Precedes(q, target)
  }

  lemma OneTarget(doc: Tree, path: seq<nat>, p: seq<nat>, q: seq<nat>)
    requires StandsFor(doc, path, p) && StandsFor(doc, path, q)
    ensures p == q
  {
    PrecedesIsTotal(p, q);
  }

  lemma SameHeads(doc: Tree, lookup: Lookup, path: seq<nat>)
    ensures At(Rewritten(doc, lookup), path).Some? <==> At(doc, path).Some?
    ensures At(doc, path).Some? ==>
              var was, now := At(doc, path).value, At(Rewritten(doc, lookup), path).value;
              && now.kind == was.kind && now.anchor == was.anchor && |now.content| == |was.content|
              && (was.kind != Scalar ==> now.tag == was.tag && now.value == was.value)
  {
    RewriteIsPointwise(doc, lookup, path);
  }

  /** The rewrite leaves every alias standing for the node it stood for. */
  lemma AliasesKeepTheirTargets(doc: Tree, lookup: Lookup, path: seq<nat>, target: seq<nat>)
    ensures StandsFor(Rewritten(doc, lookup), path, target) <==> StandsFor(doc, path, target)
  {
    var now := Rewritten(doc, lookup);
    SameHeads(doc, lookup, path);
    forall q, name: string
      ensures Anchored(now, q, name) <==> Anchored(doc, q, name)
    {
      SameHeads(doc, lookup, q);
    }
  }

  // ---- reading ----

  /** What a reader of the document makes of a node, aliases replaced by what they stand for, down to some depth. */
  datatype Reading =
    | Text(tag: string, text: string)
    | Collection(kind: Kind, tag: string, members: seq<Reading>)
    | Nothing
    | TooDeep

  ghost function TargetOf(doc: Tree, path: seq<nat>): (target: seq<nat>)
    requires exists p :: StandsFor(doc, path, p)
    ensures StandsFor(doc, path, target)
  {
    var p :| StandsFor(doc, path, p);
    p
  }

  ghost function Read(doc: Tree, path: seq<nat>, depth: nat): Reading
    decreases depth
  {
    match At(doc, path)
    case None => Nothing
    case Some(n) =>
      if depth == 0 then TooDeep
      else
        match n.kind
        case Scalar => Reading.Text(n.tag, n.value)
        case Alias =>
          if exists p :: StandsFor(doc, path, p) then Read(doc, TargetOf(doc, path), depth - 1) else Nothing
        case _ =>
          Collection(n.kind, n.tag,
                     seq(|n.content|, i requires 0 <= i < |n.content| => Read(doc, path + [i], depth - 1)))
  }

  // ---- keys ----

  /** A mapping's children are its keys and its values in turn; is the node at path one of the keys? */
  predicate IsKey(doc: Tree, path: seq<nat>) {
    var last := |path| - 1;
    && path != []
    && path[last] % 2 == 0
    && At(doc, path).Some?
    && At(doc, path[..last]).Some? && At(doc, path[..last]).value.kind == Mapping
  }

  /** Does every key read, after any interpolation that succeeds, as it read before? */
  ghost predicate KeysStay(doc: Tree) {
    forall lookup, path, depth: nat | Resolves(doc, lookup) && IsKey(doc, path) ::
      Read(Rewritten(doc, lookup), path, depth) == Read(doc, path, depth)
  }

  /** Reading p goes on to q: one of its children, or what it is an alias of. */
  ghost predicate Hop(doc: Tree, p: seq<nat>, q: seq<nat>) {
    || StandsFor(doc, p, q)
    || (&& At(doc, p).Some? && !At(doc, p).value.kind.Scalar? && !At(doc, p).value.kind.Alias?
        && exists i | 0 <= i < |At(doc, p).value.content| :: q == p + [i])
  }

  /** The nodes met on one way of reading the first of them. */
  ghost predicate Trail(doc: Tree, hops: seq<seq<nat>>) {
    hops != [] && forall i | 0 <= i < |hops| - 1 :: Hop(doc, hops[i], hops[i + 1])
  }

  /** Reading the node at path meets, at the end of these hops, a placeholder for name. */
  ghost predicate Meets(doc: Tree, path: seq<nat>, hops: seq<seq<nat>>, name: string) {
    Trail(doc, hops) && hops[0] == path && Refers(doc, hops[|hops| - 1], name)
  }

  /** No reading of the node at path meets a placeholder. */
  ghost predicate Plain(doc: Tree, path: seq<nat>) {
    forall hops, name :: !Meets(doc, path, hops, name)
  }

  lemma PlainAfterHop(doc: Tree, p: seq<nat>, q: seq<nat>)
    requires Plain(doc, p) && Hop(doc, p, q)
    ensures Plain(doc, q)
  {
    forall hops, name
      ensures !Meets(doc, q, hops, name)
    {
      if Meets(doc, q, hops, name) {
        TrailFrom(doc, p, hops);
        assert Meets(doc, p, [p] + hops, name);
      }
    }
  }

  lemma TrailFrom(doc: Tree, p: seq<nat>, hops: seq<seq<nat>>)
    requires Trail(doc, hops) && Hop(doc, p, hops[0])
    ensures Trail(doc, [p] + hops)
  {
    var longer := [p] + hops;
    forall i | 0 <= i < |longer| - 1
      ensures Hop(doc, longer[i], longer[i + 1])
    {
      if i > 0 {
        assert Hop(doc, hops[i - 1], hops[i - 1 + 1]);
      }
    }
  }

  /** Both before and after the rewrite an alias reads as what it stands for. */
  lemma AliasReadsAs(doc: Tree, lookup: Lookup, path: seq<nat>, p: seq<nat>, depth: nat)
    requires StandsFor(doc, path, p)
    ensures Read(doc, path, depth + 1) == Read(doc, p, depth)
    ensures Read(Rewritten(doc, lookup), path, depth + 1) == Read(Rewritten(doc, lookup), p, depth)
  {
    var now := Rewritten(doc, lookup);
    SameHeads(doc, lookup, path);
    AliasesKeepTheirTargets(doc, lookup, path, p);
    OneTarget(doc, path, TargetOf(doc, path), p);
    OneTarget(now, path, TargetOf(now, path), p);
  }

  lemma DanglingReads(doc: Tree, lookup: Lookup, path: seq<nat>, depth: nat)
    requires IsAlias(doc, path) && forall p :: !StandsFor(doc, path, p)
    ensures Read(Rewritten(doc, lookup), path, depth) == Read(doc, path, depth)
  {
    SameHeads(doc, lookup, path);
    forall p ensures !StandsFor(Rewritten(doc, lookup), path, p) {
      AliasesKeepTheirTargets(doc, lookup, path, p);
    }
  }

  lemma CollectionReads(doc: Tree, lookup: Lookup, path: seq<nat>, depth: nat)
    requires At(doc, path).Some? && !At(doc, path).value.kind.Scalar? && !At(doc, path).value.kind.Alias?
    requires forall i | 0 <= i < |At(doc, path).value.content| ::
               Read(Rewritten(doc, lookup), path + [i], depth) == Read(doc, path + [i], depth)
    ensures Read(Rewritten(doc, lookup), path, depth + 1) == Read(doc, path, depth + 1)
  {
    var now := Rewritten(doc, lookup);
    SameHeads(doc, lookup, path);
    assert Read(now, path, depth + 1).members == Read(doc, path, depth + 1).members;
  }

  lemma LeafReads(doc: Tree, lookup: Lookup, path: seq<nat>, depth: nat)
    requires At(doc, path) == None || depth == 0 || (At(doc, path).value.kind.Scalar? && Plain(doc, path))
    ensures Read(Rewritten(doc, lookup), path, depth) == Read(doc, path, depth)
  {
    SameHeads(doc, lookup, path);
    if At(doc, path).Some? && depth > 0 {
      PlainScalarStays(doc, lookup, path);
    }
  }

  lemma ChildrenArePlain(doc: Tree, path: seq<nat>)
    requires At(doc, path).Some? && !At(doc, path).value.kind.Scalar? && !At(doc, path).value.kind.Alias?
    requires Plain(doc, path)
    ensures forall i | 0 <= i < |At(doc, path).value.content| :: Plain(doc, path + [i])
  {
    forall i | 0 <= i < |At(doc, path).value.content|
      ensures Plain(doc, path + [i])
    {
      assert Hop(doc, path, path + [i]);
      PlainAfterHop(doc, path, path + [i]);
    }
  }

  /** A reading that meets no placeholder is not changed. */
  lemma {:induction false} PlainReadsTheSame(doc: Tree, lookup: Lookup, path: seq<nat>, depth: nat)
    requires Plain(doc, path)
    ensures Read(Rewritten(doc, lookup), path, depth) == Read(doc, path, depth)
    decreases depth, 1
  {
    if At(doc, path) == None || depth == 0 || At(doc, path).value.kind.Scalar? {
      LeafReads(doc, lookup, path, depth);
    } else if At(doc, path).value.kind.Alias? {
      PlainAlias(doc, lookup, path, depth - 1);
    } else {
      PlainCollection(doc, lookup, path, depth - 1);
    }
  }

  lemma {:induction false} PlainCollection(doc: Tree, lookup: Lookup, path: seq<nat>, below: nat)
    requires At(doc, path).Some? && !At(doc, path).value.kind.Scalar? && !At(doc, path).value.kind.Alias?
    requires Plain(doc, path)
    ensures Read(Rewritten(doc, lookup), path, below + 1) == Read(doc, path, below + 1)
    decreases below + 1, 0
  {
    ChildrenArePlain(doc, path);
    forall i | 0 <= i < |At(doc, path).value.content|
      ensures Read(Rewritten(doc, lookup), path + [i], below) == Read(doc, path + [i], below)
    {
      PlainReadsTheSame(doc, lookup, path + [i], below);
    }
    CollectionReads(doc, lookup, path, below);
  }

  lemma {:induction false} PlainAlias(doc: Tree, lookup: Lookup, path: seq<nat>, below: nat)
    requires Plain(doc, path) && IsAlias(doc, path)
    ensures Read(Rewritten(doc, lookup), path, below + 1) == Read(doc, path, below + 1)
    decreases below + 1, 0
  {
    if p :| StandsFor(doc, path, p) {
      PlainAfterHop(doc, path, p);
      PlainReadsTheSame(doc, lookup, p, below);
      AliasReads(doc, lookup, path, p, below);
    } else {
      DanglingReads(doc, lookup, path, below + 1);
    }
  }

  lemma AliasReads(doc: Tree, lookup: Lookup, path: seq<nat>, p: seq<nat>, below: nat)
    requires StandsFor(doc, path, p) && Read(Rewritten(doc, lookup), p, below) == Read(doc, p, below)
    ensures Read(Rewritten(doc, lookup), path, below + 1) == Read(doc, path, below + 1)
  {
    AliasReadsAs(doc, lookup, path, p, below);
  }

  lemma PlainScalarStays(doc: Tree, lookup: Lookup, path: seq<nat>)
    requires Plain(doc, path) && At(doc, path).Some?
    ensures At(Rewritten(doc, lookup), path).Some?
    ensures At(Rewritten(doc, lookup), path).value.tag == At(doc, path).value.tag
    ensures At(Rewritten(doc, lookup), path).value.value == At(doc, path).value.value
  {
    forall name ensures !Refers(doc, path, name) {
      assert Trail(doc, [path]);
      assert !Meets(doc, path, [path], name);
    }
    TouchedExactly(doc, path);
    RewriteIsPointwise(doc, lookup, path);
  }

  // ---- the other direction ----

  function Blank(name: string): Option<string> {
    Some("")
  }

  /** Filling every reference with nothing takes its characters out. */
  lemma {:induction false} BlankShortens(s: string)
    ensures |Expand(s, Blank)| <= |s|
    ensures NamesIn(s) != {} ==> |Expand(s, Blank)| < |s|
    decreases |s|
  {
    if s != "" {
      BlankShortens(s[if Head(s).Some? then |Written(Head(s).value)| else 1..]);
    }
  }

  lemma BlankScalarDiffers(doc: Tree, path: seq<nat>, name: string, depth: nat)
    requires Refers(doc, path, name) && depth > 0
    ensures Read(Rewritten(doc, Blank), path, depth) != Read(doc, path, depth)
  {
    TouchedExactly(doc, path);
    RewriteIsPointwise(doc, Blank, path);
    BlankShortens(At(doc, path).value.value);
  }

  /** A placeholder met anywhere on the way shows in the reading. */
  lemma {:induction false} PlaceholderShows(doc: Tree, hops: seq<seq<nat>>, name: string)
    requires hops != [] && Meets(doc, hops[0], hops, name)
    ensures Read(Rewritten(doc, Blank), hops[0], |hops|) != Read(doc, hops[0], |hops|)
    decreases |hops|
  {
    if |hops| == 1 {
      BlankScalarDiffers(doc, hops[0], name, 1);
    } else {
      var rest := hops[1..];
      assert Hop(doc, hops[0], hops[0 + 1]);
      forall i | 0 <= i < |rest| - 1
        ensures Hop(doc, rest[i], rest[i + 1])
      {
        assert Hop(doc, hops[i + 1], hops[i + 1 + 1]);
      }
      PlaceholderShows(doc, rest, name);
      HopShows(doc, Blank, hops[0], hops[1], |rest|);
    }
  }

  /** What differs after a hop differs before it. */
  lemma HopShows(doc: Tree, lookup: Lookup, p: seq<nat>, q: seq<nat>, depth: nat)
    requires Hop(doc, p, q) && Read(Rewritten(doc, lookup), q, depth) != Read(doc, q, depth)
    ensures Read(Rewritten(doc, lookup), p, depth + 1) != Read(doc, p, depth + 1)
  {
    var now := Rewritten(doc, lookup);
    SameHeads(doc, lookup, p);
    if StandsFor(doc, p, q) {
      AliasesKeepTheirTargets(doc, lookup, p, q);
      OneTarget(doc, p, TargetOf(doc, p), q);
      OneTarget(now, p, TargetOf(now, p), q);
    } else {
      var i :| 0 <= i < |At(doc, p).value.content| && q == p + [i];
      assert Read(now, p, depth + 1).members[i] != Read(doc, p, depth + 1).members[i];
    }
  }

  /**
   Values introduce and rename no key exactly in the documents of which no key,
   with everything below it and everything aliases in it stand for, refers to a
   variable.
   */
  lemma KeysStayExactly(doc: Tree)
    ensures KeysStay(doc) <==> forall path | IsKey(doc, path) :: Plain(doc, path)
  {
    if path :| IsKey(doc, path) && !Plain(doc, path) {
      MetKeyChanges(doc, path);
    } else {
      forall lookup, path, depth: nat | Resolves(doc, lookup) && IsKey(doc, path)
        ensures Read(Rewritten(doc, lookup), path, depth) == Read(doc, path, depth)
      {
        PlainReadsTheSame(doc, lookup, path, depth);
      }
    }
  }

  lemma MetKeyChanges(doc: Tree, path: seq<nat>)
    requires IsKey(doc, path) && !Plain(doc, path)
    ensures !KeysStay(doc)
  {
    var hops, name :| Meets(doc, path, hops, name);
    PlaceholderShows(doc, hops, name);
    assert Resolves(doc, Blank);
  }

  // ---- two documents ----

  function Leaf(anchor: string, value: string): Tree {
    Tree(Scalar, anchor, "", Presented(0), value, [])
  }

  function AliasOf(name: string): Tree {
    Tree(Alias, "", "", Presented(0), name, [])
  }

  function MappingOf(content: seq<Tree>): Tree {
    Tree(Mapping, "", "", Presented(0), "", content)
  }

  lemma OneReference(name: string, lookup: Lookup)
    requires IsVariable(name)
    ensures NamesIn(Written(name)) == {name} && Expand(Written(name), lookup) == Filling(name, lookup)
  {
    var w := Written(name);
    assert w[0..|w|] == w;
    HeadFinds(w, name);
    assert w[|w|..] == "";
    assert Filling(name, lookup) + "" == Filling(name, lookup);
  }

  lemma ItemAt(content: seq<Tree>, path: seq<nat>)
    requires forall i | 0 <= i < |content| :: content[i].content == []
    ensures At(MappingOf(content), path).Some? <==> path == [] || (|path| == 1 && path[0] < |content|)
    ensures |path| == 1 && path[0] < |content| ==> At(MappingOf(content), path) == Some(content[path[0]])
  {
    if path != [] && path[0] < |content| {
      assert |path| == 1 ==> path[1..] == [];
    }
  }

  /** Where a mapping of scalars and aliases refers to a variable. */
  lemma ReferencesOf(content: seq<Tree>, path: seq<nat>, name: string)
    requires forall i | 0 <= i < |content| :: content[i].content == []
    requires Refers(MappingOf(content), path, name)
    ensures |path| == 1 && path[0] < |content|
    ensures content[path[0]].kind == Scalar && name in NamesIn(content[path[0]].value)
  {
    ItemAt(content, path);
    ScanFindsEveryPlaceholder(At(MappingOf(content), path).value.value, name);
  }

  lemma TopLevelKey(content: seq<Tree>, i: nat)
    requires i < |content| && i % 2 == 0
    ensures IsKey(MappingOf(content), [i])
  {
    assert [i][..0] == [] && [i][1..] == [];
  }

  lemma FilledReading(doc: Tree, lookup: Lookup, path: seq<nat>, name: string, filled: string, depth: nat)
    requires IsVariable(name) && lookup(name) == Some(filled) && depth > 0
    requires At(doc, path).Some? && At(doc, path).value.kind == Scalar && At(doc, path).value.value == Written(name)
    ensures Read(Rewritten(doc, lookup), path, depth) == Text(STRING_TAG, filled)
    ensures Read(doc, path, depth) == Text(At(doc, path).value.tag, Written(name))
  {
    OneReference(name, lookup);
    RewriteIsPointwise(doc, lookup, path);
  }

  /** {"${name}": "on"}: the key itself holds a placeholder. */
  lemma PlaceholderKey(name: string, value: string, lookup: Lookup, filled: string)
    requires IsVariable(name) && lookup(name) == Some(filled) && NamesIn(value) == {} && filled != Written(name)
    ensures var doc := MappingOf([Leaf("", Written(name)), Leaf("", value)]);
            && IsKey(doc, [0]) && Resolves(doc, lookup)
            && Read(doc, [0], 1) == Text("", Written(name))
            && Read(Rewritten(doc, lookup), [0], 1) == Text(STRING_TAG, filled)
            && !KeysStay(doc)
  {
    var content := [Leaf("", Written(name)), Leaf("", value)];
    var doc := MappingOf(content);
    ItemAt(content, [0]);
    TopLevelKey(content, 0);
    FilledReading(doc, lookup, [0], name, filled, 1);
    forall path, n | Refers(doc, path, n)
      ensures lookup(n).Some?
    {
      ReferencesOf(content, path, n);
      OnlyTheKey(name, value, path[0], n);
    }
  }

  lemma OnlyTheKey(name: string, value: string, i: nat, n: string)
    requires NamesIn(value) == {} && IsVariable(name) && i < 2
    requires n in NamesIn([Leaf("", Written(name)), Leaf("", value)][i].value)
    ensures n == name
  {
    OneReference(name, Blank);
  }

  /** The key of such a document becomes the value of the variable. */
  lemma KeyIsRenamed(lookup: Lookup)
    requires lookup("KEY") == Some("privileged")
    ensures var doc := MappingOf([Leaf("", "${KEY}"), Leaf("", "on")]);
            && IsKey(doc, [0]) && Resolves(doc, lookup)
            && Read(doc, [0], 1) == Text("", "${KEY}")
            && Read(Rewritten(doc, lookup), [0], 1) == Text(STRING_TAG, "privileged")
            && !KeysStay(doc)
  {
    assert Written("KEY") == "${KEY}";
    PlaceholderKey("KEY", "on", lookup, "privileged");
  }

  /** {title: &anchor "${name}", *anchor: value}: no key holds a placeholder, one is an alias of a value that does. */
  function AliasedKeyDocument(title: string, anchor: string, name: string, value: string): Tree {
    MappingOf([Leaf("", title), Leaf(anchor, Written(name)), AliasOf(anchor), Leaf("", value)])
  }

  lemma AliasInPlace(title: string, anchor: string, name: string, value: string)
    requires anchor != ""
    ensures StandsFor(AliasedKeyDocument(title, anchor, name, value), [2], [1])
  {
    var content := [Leaf("", title), Leaf(anchor, Written(name)), AliasOf(anchor), Leaf("", value)];
    var doc := AliasedKeyDocument(title, anchor, name, value);
    ItemAt(content, [1]);
    ItemAt(content, [2]);
    forall q | Anchored(doc, q, anchor)
      ensures q == [1]
    {
      ItemAt(content, q);
    }
    assert Precedes([1], [2]);
  }

  lemma AliasedKey(title: string, anchor: string, name: string, value: string, lookup: Lookup, filled: string)
    requires anchor != "" && NamesIn(title) == {} && NamesIn(value) == {}
    requires IsVariable(name) && lookup(name) == Some(filled) && filled != Written(name)
    ensures var doc := AliasedKeyDocument(title, anchor, name, value);
            && IsKey(doc, [2]) && Resolves(doc, lookup)
            && (forall path, n | IsKey(doc, path) :: !Refers(doc, path, n))
            && Read(doc, [2], 2) == Text("", Written(name))
            && Read(Rewritten(doc, lookup), [2], 2) == Text(STRING_TAG, filled)
            && !KeysStay(doc)
  {
    var doc := AliasedKeyDocument(title, anchor, name, value);
    AliasedKeyParts(title, anchor, name, value);
    FilledReading(doc, lookup, [1], name, filled, 1);
    AliasInPlace(title, anchor, name, value);
    AliasReadsAs(doc, lookup, [2], [1], 1);
  }

  lemma AliasedKeyParts(title: string, anchor: string, name: string, value: string)
    requires NamesIn(title) == {} && NamesIn(value) == {} && IsVariable(name)
    ensures var doc := AliasedKeyDocument(title, anchor, name, value);
            && At(doc, [1]) == Some(Leaf(anchor, Written(name)))
            && IsKey(doc, [2])
            && forall path, n | Refers(doc, path, n) :: n == name && !IsKey(doc, path)
  {
    var content := [Leaf("", title), Leaf(anchor, Written(name)), AliasOf(anchor), Leaf("", value)];
    ItemAt(content, [1]);
    TopLevelKey(content, 2);
    forall path, n | Refers(MappingOf(content), path, n)
      ensures n == name && !IsKey(MappingOf(content), path)
    {
      ReferencesOf(content, path, n);
      OnlyTheAnchored(title, anchor, name, value, path[0], n);
    }
  }

  lemma OnlyTheAnchored(title: string, anchor: string, name: string, value: string, i: nat, n: string)
    requires NamesIn(title) == {} && NamesIn(value) == {} && IsVariable(name) && i < 4
    requires var t := [Leaf("", title), Leaf(anchor, Written(name)), AliasOf(anchor), Leaf("", value)][i];
             t.kind == Scalar && n in NamesIn(t.value)
    ensures i == 1 && n == name
  {
    OneReference(name, Blank);
  }

  /** {A: &k "${KEY}", *k: "on"}, with KEY set to "privileged": the second key becomes "privileged". */
  lemma AliasedKeyIsRenamed(lookup: Lookup)
    requires lookup("KEY") == Some("privileged")
    ensures var doc := MappingOf([Leaf("", "A"), Leaf("k", "${KEY}"), AliasOf("k"), Leaf("", "on")]);
            && IsKey(doc, [2]) && Resolves(doc, lookup)
            && (forall path, name | IsKey(doc, path) :: !Refers(doc, path, name))
            && Read(doc, [2], 2) == Text("", "${KEY}")
            && Read(Rewritten(doc, lookup), [2], 2) == Text(STRING_TAG, "privileged")
            && !KeysStay(doc)
  {
    assert Written("KEY") == "${KEY}";
    AliasedKey("A", "k", "KEY", "on", lookup, "privileged");
  }
}
