/** The decoded AIOSEO settings tree and `flatten_settings`, which turns a
    nested settings array into one PHP array keyed by `/`-joined paths. */
module Settings {
  import opened PhpArray

  /** A scalar of the decoded settings blob (JSON `true`, `12`, `1.5`, `"x"`,
      `null`). A JSON number with a fraction decodes to a PHP float, kept
      here as an exact `real`. */
  datatype Scalar = Bool(b: bool) | Int(i: int) | Float(f: real) | Str(s: string) | Null

  /** A decoded settings value: a scalar leaf, or a PHP array (a JSON object or
      list) whose members are listed in key order. List indexes appear as their
      decimal strings. */
  datatype Setting = Leaf(value: Scalar) | Group(children: seq<Node>)
  datatype Node = Node(key: string, setting: Setting)

  /** A flattened settings array: path => leaf value, in insertion order. */
  type Flat = seq<Entry<Scalar>>

  /** The number of leaves below the members `cs`, at any depth. */
  function LeafCount(cs: seq<Node>): nat
    decreases cs
  {
    if cs == [] then 0 else LeafCount(cs[..|cs| - 1]) + NodeLeafCount(cs[|cs| - 1])
  }

  function NodeLeafCount(n: Node): nat
    decreases n
  {
    match n.setting
    case Leaf(_) => 1
    case Group(gs) => LeafCount(gs)
  }

  /** `flatten_settings( $array, $key_prefix )`: a depth-first walk over the
      members in key order. Each leaf is stored under `prefix/key`; each nested
      array is flattened under `prefix/key` and `array_merge`d into the result.
      The result never has more entries than there are leaves. */
  function Flatten(prefix: string, cs: seq<Node>): (r: Flat)
    ensures Distinct(r)
    ensures |r| <= LeafCount(cs)
    decreases cs
  {
    if cs == [] then []
    else Absorb(Flatten(prefix, cs[..|cs| - 1]), prefix, cs[|cs| - 1])
  }

  /** One iteration of the loop in `flatten_settings`, applied to the result
      `acc` built so far. */
  function Absorb(acc: Flat, prefix: string, n: Node): (r: Flat)
    requires Distinct(acc)
    ensures Distinct(r)
    ensures |r| <= |acc| + NodeLeafCount(n)
    decreases n
  {
    var path := prefix + "/" + n.key;
    match n.setting
    case Leaf(v) =>
      PutDistinct(acc, path, v);
      Put(acc, path, v)
    case Group(gs) =>
      var inner := Flatten(path, gs);
      MergeDistinct(acc, inner);
      Merge(acc, inner)
  }

  // ---------------------------------------------------------------------
  // Reference definition: the leaves of the tree, each with its key path.
  // ---------------------------------------------------------------------

  /** A leaf together with the keys leading to it from the root. */
  datatype LeafPath = LeafPath(segments: seq<string>, value: Scalar)

  /** Every leaf below `cs`, depth first, members in key order. */
  function LeafPaths(cs: seq<Node>): seq<LeafPath>
    decreases cs
  {
    if cs == [] then [] else LeafPaths(cs[..|cs| - 1]) + NodePaths(cs[|cs| - 1])
  }

  function NodePaths(n: Node): seq<LeafPath>
    decreases n
  {
    match n.setting
    case Leaf(v) => [LeafPath([n.key], v)]
    case Group(gs) => Extend(n.key, LeafPaths(gs))
  }

  /** The same leaves, one level deeper under `key`. */
  function Extend(key: string, ls: seq<LeafPath>): seq<LeafPath>
  {
    seq(|ls|, i requires 0 <= i < |ls| => LeafPath([key] + ls[i].segments, ls[i].value))
  }

  /** `/a/b/c` for the segments `a`, `b`, `c`. */
  function Join(segments: seq<string>): string
  {
    if segments == [] then "" else "/" + segments[0] + Join(segments[1..])
  }

  /** The flattened array the leaves describe. */
  function Render(prefix: string, ls: seq<LeafPath>): Flat
  {
    seq(|ls|, i requires 0 <= i < |ls| => Entry(prefix + Join(ls[i].segments), ls[i].value))
  }

  /** The member keys of `cs`, in order. */
  function Names(cs: seq<Node>): seq<string>
    decreases cs
  {
    if cs == [] then [] else Names(cs[..|cs| - 1]) + [cs[|cs| - 1].key]
  }

  /** A settings array whose keys are unique at every level and contain no
      `/`: PHP arrays guarantee the first, AIOSEO's option names the second. */
  predicate WellFormed(cs: seq<Node>)
    decreases cs
  {
    cs == [] ||
    (WellFormed(cs[..|cs| - 1]) && cs[|cs| - 1].key !in Names(cs[..|cs| - 1]) && NodeWellFormed(cs[|cs| - 1]))
  }

  predicate NodeWellFormed(n: Node)
    decreases n
  {
    '/' !in n.key && (n.setting.Group? ==> WellFormed(n.setting.children))
  }

  // ---------------------------------------------------------------------
  // Path shape.
  // ---------------------------------------------------------------------

  /** The text of `s` up to its first `/`. */
  function FirstSegment(s: string): string
  {
    if s == [] || s[0] == '/' then [] else [s[0]] + FirstSegment(s[1..])
  }

  /** `path` lies below `prefix`: it starts with `prefix/`. */
  predicate Below(path: string, prefix: string)
  {
    |prefix| < |path| && path[..|prefix| + 1] == prefix + "/"
  }

  /** The key directly below `prefix` on the way to `path`. */
  function Segment(path: string, prefix: string): string
    requires Below(path, prefix)
  {
    FirstSegment(path[|prefix| + 1..])
  }

  lemma {:induction false} FirstSegmentOf(key: string, tail: string)
    requires '/' !in key
    requires tail == [] || tail[0] == '/'
    ensures FirstSegment(key + tail) == key
  {
    if key == [] {
      assert key + tail == tail;
    } else {
      assert (key + tail)[1..] == key[1..] + tail;
      FirstSegmentOf(key[1..], tail);
    }
  }

  /** A path at or below `prefix/key` lies below `prefix`, through `key`. */
  lemma ChildSegment(path: string, prefix: string, key: string)
    requires '/' !in key
    requires path == prefix + "/" + key || Below(path, prefix + "/" + key)
    ensures Below(path, prefix)
    ensures Segment(path, prefix) == key
  {
    var n := |prefix| + 1;
    var tail := path[n + |key|..];
    assert path[..n] == prefix + "/";
    assert path[n..] == key + tail;
    if path != prefix + "/" + key {
      assert path[n + |key|] == (prefix + "/" + key + "/")[n + |key|];
    }
    FirstSegmentOf(key, tail);
  }

  // ---------------------------------------------------------------------
  // Flattening agrees with the reference definition.
  // ---------------------------------------------------------------------

  /** What one member contributes to the flattened array. */
  function NodeEntries(prefix: string, n: Node): Flat
  {
    match n.setting
    case Leaf(v) => [Entry(prefix + "/" + n.key, v)]
    case Group(gs) => Flatten(prefix + "/" + n.key, gs)
  }

  lemma RenderAppend(prefix: string, a: seq<LeafPath>, b: seq<LeafPath>)
    ensures Render(prefix, a + b) == Render(prefix, a) + Render(prefix, b)
  {
  }

  lemma RenderExtend(prefix: string, key: string, ls: seq<LeafPath>)
    ensures Render(prefix + "/" + key, ls) == Render(prefix, Extend(key, ls))
  {
    forall i | 0 <= i < |ls|
      ensures Render(prefix + "/" + key, ls)[i] == Render(prefix, Extend(key, ls))[i]
    {
      var s := ls[i].segments;
      assert ([key] + s)[1..] == s;
      assert Join([key] + s) == "/" + key + Join(s);
    }
  }

  /** Flattening a well-formed settings array lists exactly its leaves, depth
      first and in key order, each under its `/`-joined path, and every key
      sits below `prefix` under one of the member names. */
  lemma {:induction false} FlattenMatchesLeaves(prefix: string, cs: seq<Node>)
    requires WellFormed(cs)
    ensures Flatten(prefix, cs) == Render(prefix, LeafPaths(cs))
    ensures forall k :: k in Keys(Flatten(prefix, cs)) ==> Below(k, prefix) && Segment(k, prefix) in Names(cs)
    decreases cs
  {
    if cs != [] {
      var init := cs[..|cs| - 1];
      var n := cs[|cs| - 1];
      var acc := Flatten(prefix, init);
      var part := NodeEntries(prefix, n);
      FlattenMatchesLeaves(prefix, init);
      NodeMatchesLeaves(prefix, n);
      assert Disjoint(acc, part) by {
        forall k | k in Keys(part) ensures k !in Keys(acc) {
          assert Segment(k, prefix) == n.key;
        }
      }
      AbsorbDisjoint(acc, prefix, n);
      RenderAppend(prefix, LeafPaths(init), NodePaths(n));
      KeysAppend(acc, part);
      assert Names(cs) == Names(init) + [n.key];
    }
  }

  /** The contribution of one member, described by its leaves. */
  lemma {:induction false} NodeMatchesLeaves(prefix: string, n: Node)
    requires NodeWellFormed(n)
    ensures NodeEntries(prefix, n) == Render(prefix, NodePaths(n))
    ensures Distinct(NodeEntries(prefix, n))
    ensures forall k :: k in Keys(NodeEntries(prefix, n)) ==> Below(k, prefix) && Segment(k, prefix) == n.key
    decreases n
  {
    var path := prefix + "/" + n.key;
    match n.setting
    case Leaf(v) =>
      assert [n.key][1..] == [];
      assert Join([n.key]) == "/" + n.key;
      assert Render(prefix, NodePaths(n))[0] == Entry(path, v);
      assert Keys(NodeEntries(prefix, n)) == [path];
      ChildSegment(path, prefix, n.key);
    case Group(gs) =>
      FlattenMatchesLeaves(path, gs);
      RenderExtend(prefix, n.key, LeafPaths(gs));
      forall k | k in Keys(NodeEntries(prefix, n))
        ensures Below(k, prefix) && Segment(k, prefix) == n.key
      {
        ChildSegment(k, prefix, n.key);
      }
  }

  /** Once the keys are known to be new, a loop iteration simply appends. */
  lemma AbsorbDisjoint(acc: Flat, prefix: string, n: Node)
    requires Distinct(acc)
    requires Distinct(NodeEntries(prefix, n))
    requires Disjoint(acc, NodeEntries(prefix, n))
    ensures Absorb(acc, prefix, n) == acc + NodeEntries(prefix, n)
  {
    match n.setting
    case Leaf(v) =>
      assert Keys(NodeEntries(prefix, n)) == [prefix + "/" + n.key];
    case Group(gs) =>
      MergeDisjoint(acc, NodeEntries(prefix, n));
  }

  /** Appending a member to a well-formed settings array appends its entries,
      after all earlier members' entries: flattening keeps source key order. */
  lemma FlattenSnoc(prefix: string, cs: seq<Node>, n: Node)
    requires WellFormed(cs + [n])
    ensures Flatten(prefix, cs + [n]) == Flatten(prefix, cs) + NodeEntries(prefix, n)
  {
    var all := cs + [n];
    assert all[..|all| - 1] == cs && all[|all| - 1] == n;
    var acc := Flatten(prefix, cs);
    FlattenMatchesLeaves(prefix, cs);
    NodeMatchesLeaves(prefix, n);
    assert Disjoint(acc, NodeEntries(prefix, n)) by {
      forall k | k in Keys(NodeEntries(prefix, n)) ensures k !in Keys(acc) {
        assert Segment(k, prefix) == n.key;
      }
    }
    AbsorbDisjoint(acc, prefix, n);
  }

  /** Building a well-formed settings array member by member. */
  lemma WellFormedSnoc(cs: seq<Node>, n: Node)
    requires WellFormed(cs) && n.key !in Names(cs) && NodeWellFormed(n)
    ensures WellFormed(cs + [n])
    ensures Names(cs + [n]) == Names(cs) + [n.key]
  {
    assert (cs + [n])[..|cs|] == cs;
  }
}
