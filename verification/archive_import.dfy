/** The AIOSEO default-archive settings importing action: `query` picks the
    `searchAppearance.archives` part of the `aioseo_options` blob and flattens
    it; `map` moves one flattened setting into this plugin's options through a
    static path table. */
module ArchiveImport {
  import opened Optional
  import opened PhpArray
  import opened Settings

  /** `get_source_option_name()`: the option row AIOSEO stores its settings in. */
  const SourceOptionName: string := "aioseo_options"

  // ---------------------------------------------------------------------
  // query
  // ---------------------------------------------------------------------

  /** `$array[$key]` on a decoded settings array. */
  function Lookup(cs: seq<Node>, key: string): (r: Option<Setting>)
    ensures r.Some? <==> key in Names(cs)
    ensures r.Some? ==> Node(key, r.value) in cs
    decreases cs
  {
    if cs == [] then None
    else if cs[|cs| - 1].key == key && key !in Names(cs[..|cs| - 1]) then Some(cs[|cs| - 1].setting)
    else Lookup(cs[..|cs| - 1], key)
  }

  /** The members of `searchAppearance.archives`, when the decoded blob has
      that path and it holds an array. `None` stands for a blob that did not
      decode. */
  function Archives(blob: Option<Setting>): Option<seq<Node>>
  {
    if blob.None? || blob.value.Leaf? then None
    else match Lookup(blob.value.children, "searchAppearance")
      case Some(Group(appearance)) =>
        (match Lookup(appearance, "archives")
         case Some(Group(archives)) => Some(archives)
         case _ => None)
      case _ => None
  }

  /** `query()` with no chunk limit: the flattened archive settings, or an
      empty array when the blob lacks them or holds something other than an
      array there. For a well-formed blob the result lists every archive leaf,
      depth first, under its `/`-joined path. */
  function Query(blob: Option<Setting>): (r: Flat)
    ensures Distinct(r)
    ensures Archives(blob).None? ==> r == []
    ensures Archives(blob).Some? && WellFormed(Archives(blob).value) ==>
              r == Render("", LeafPaths(Archives(blob).value))
    ensures Archives(blob).Some? && WellFormed(Archives(blob).value) ==>
              |r| == LeafCount(Archives(blob).value)
  {
    match Archives(blob)
    case None => []
    case Some(archives) =>
      if WellFormed(archives) then
        FlattenMatchesLeaves("", archives);
        LeafPathsCount(archives);
        Flatten("", archives)
      else Flatten("", archives)
  }

  /** There is one leaf path per leaf. */
  lemma {:induction false} LeafPathsCount(cs: seq<Node>)
    ensures |LeafPaths(cs)| == LeafCount(cs)
    decreases cs
  {
    if cs != [] {
      LeafPathsCount(cs[..|cs| - 1]);
      NodePathsCount(cs[|cs| - 1]);
    }
  }

  lemma {:induction false} NodePathsCount(n: Node)
    ensures |NodePaths(n)| == NodeLeafCount(n)
    decreases n
  {
    match n.setting
    case Leaf(_) =>
    case Group(gs) => LeafPathsCount(gs);
  }

  /** Flattening a well-formed settings array emits exactly one entry per
      leaf, with unique keys. */
  lemma FlattenOnePerLeaf(prefix: string, cs: seq<Node>)
    requires WellFormed(cs)
    ensures |Flatten(prefix, cs)| == LeafCount(cs)
    ensures Distinct(Flatten(prefix, cs))
  {
    FlattenMatchesLeaves(prefix, cs);
    LeafPathsCount(cs);
  }

  // ---------------------------------------------------------------------
  // map
  // ---------------------------------------------------------------------

  /** How a mapped value is transformed before it is saved: through the
      replacement-variable handler (titles and descriptions), or through some
      other transform method of the action (robots settings). */
  datatype Transform = ReplaceVars | Custom

  /** A row of the mapping table: the destination option and its transform. */
  datatype Rule = Rule(destination: string, transform: Transform)

  /** The calls `map` makes on its collaborators, in order. */
  datatype Call =
    | GetDefault(option: string)
    | TransformReplacevars(input: Scalar)
    | Set(option: string, value: Scalar)

  /** `Options_Helper::get_default`: the registered default, PHP `null` when
      there is none. */
  function DefaultOf(defaults: map<string, Scalar>, option: string): Scalar
  {
    if option in defaults then defaults[option] else Null
  }

  function Reads(calls: seq<Call>): nat
  {
    if calls == [] then 0 else (if calls[0].GetDefault? then 1 else 0) + Reads(calls[1..])
  }

  function Transforms(calls: seq<Call>): nat
  {
    if calls == [] then 0 else (if calls[0].TransformReplacevars? then 1 else 0) + Transforms(calls[1..])
  }

  function Writes(calls: seq<Call>): nat
  {
    if calls == [] then 0 else (if calls[0].Set? then 1 else 0) + Writes(calls[1..])
  }

  /** The counts of a call sequence add up over its parts. */
  lemma {:induction false} CallCounts(a: seq<Call>, b: seq<Call>)
    ensures Reads(a + b) == Reads(a) + Reads(b)
    ensures Transforms(a + b) == Transforms(a) + Transforms(b)
    ensures Writes(a + b) == Writes(a) + Writes(b)
  {
    if a == [] {
      assert a + b == b;
    } else {
      assert (a + b)[1..] == a[1..] + b;
      CallCounts(a[1..], b);
    }
  }

  /** `map( $setting_value, $setting )`: an unmapped path does nothing. A
      mapped path first reads the destination's default, once; when that
      default is not `null` the value is transformed and written once to the
      destination. Only replacement-variable rules call the replacevar
      handler, and they hand it the setting value itself. */
  function Map(table: map<string, Rule>, defaults: map<string, Scalar>,
               replacevars: Scalar -> Scalar, custom: Scalar -> Scalar,
               path: string, value: Scalar): (calls: seq<Call>)
    ensures path !in table ==> calls == []
    ensures Reads(calls) == (if path in table then 1 else 0)
    ensures Writes(calls) == (if path in table && DefaultOf(defaults, table[path].destination) != Null then 1 else 0)
    ensures Transforms(calls) ==
              (if path in table && DefaultOf(defaults, table[path].destination) != Null
                  && table[path].transform == ReplaceVars then 1 else 0)
    ensures calls != [] ==> path in table && calls[0] == GetDefault(table[path].destination)
    ensures forall c :: c in calls && c.GetDefault? ==> path in table && c.option == table[path].destination
    ensures forall c :: c in calls && c.TransformReplacevars? ==> c.input == value
    ensures forall c :: c in calls && c.Set? ==>
              c.option == table[path].destination &&
              c.value == (if table[path].transform == ReplaceVars then replacevars(value) else custom(value))
  {
    if path !in table then []
    else
      var d := table[path].destination;
      if DefaultOf(defaults, d) == Null then [GetDefault(d)]
      else match table[path].transform
        case ReplaceVars =>
          var last := [Set(d, replacevars(value))];
          var calls := [GetDefault(d), TransformReplacevars(value)] + last;
          CallCounts([GetDefault(d)], [TransformReplacevars(value)] + last);
          CallCounts([TransformReplacevars(value)], last);
          calls
        case Custom =>
          CallCounts([GetDefault(d)], [Set(d, custom(value))]);
          [GetDefault(d), Set(d, custom(value))]
  }

  /** The option store after the calls: each `set` overwrites one option. */
  function Apply(store: map<string, Scalar>, calls: seq<Call>): map<string, Scalar>
    decreases |calls|
  {
    if calls == [] then store
    else
      var next := if calls[0].Set? then store[calls[0].option := calls[0].value] else store;
      Apply(next, calls[1..])
  }

  /** The options the calls write, each with the last value written. */
  function Written(calls: seq<Call>): map<string, Scalar>
  {
    if calls == [] then map[]
    else (if calls[0].Set? then map[calls[0].option := calls[0].value] else map[]) + Written(calls[1..])
  }

  /** Running the calls overrides the store with what they write and leaves
      every other option alone. */
  lemma {:induction false} ApplyOverrides(store: map<string, Scalar>, calls: seq<Call>)
    ensures Apply(store, calls) == store + Written(calls)
    decreases |calls|
  {
    if calls != [] {
      var first := if calls[0].Set? then map[calls[0].option := calls[0].value] else map[];
      var next := if calls[0].Set? then store[calls[0].option := calls[0].value] else store;
      assert next == store + first;
      ApplyOverrides(next, calls[1..]);
      assert (store + first) + Written(calls[1..]) == store + (first + Written(calls[1..]));
    }
  }

  /** Importing is idempotent: running the same calls again changes nothing. */
  lemma ApplyIdempotent(store: map<string, Scalar>, calls: seq<Call>)
    ensures Apply(Apply(store, calls), calls) == Apply(store, calls)
  {
    ApplyOverrides(store, calls);
    ApplyOverrides(Apply(store, calls), calls);
    assert (store + Written(calls)) + Written(calls) == store + Written(calls);
  }

  /** The store after `map`: unchanged for an unmapped path or a `null`
      default, otherwise only the destination option changes, to the
      transformed value. */
  lemma MapStore(table: map<string, Rule>, defaults: map<string, Scalar>,
                 replacevars: Scalar -> Scalar, custom: Scalar -> Scalar,
                 path: string, value: Scalar, store: map<string, Scalar>)
    ensures path !in table ==> Apply(store, Map(table, defaults, replacevars, custom, path, value)) == store
    ensures path in table && DefaultOf(defaults, table[path].destination) != Null ==>
              Apply(store, Map(table, defaults, replacevars, custom, path, value)) ==
              store[table[path].destination :=
                      if table[path].transform == ReplaceVars then replacevars(value) else custom(value)]
    ensures path in table && DefaultOf(defaults, table[path].destination) == Null ==>
              Apply(store, Map(table, defaults, replacevars, custom, path, value)) == store
  {
    var calls := Map(table, defaults, replacevars, custom, path, value);
    ApplyOverrides(store, calls);
    if path in table && DefaultOf(defaults, table[path].destination) != Null {
      var rule := table[path];
      var v := if rule.transform == ReplaceVars then replacevars(value) else custom(value);
      var write := [Set(rule.destination, v)];
      assert Written(write) == map[rule.destination := v] by {
        assert write[1..] == [];
      }
      if rule.transform == ReplaceVars {
        assert calls == [GetDefault(rule.destination), TransformReplacevars(value)] + write;
        assert calls[1..][1..] == write;
      } else {
        assert calls == [GetDefault(rule.destination)] + write;
        assert calls[1..] == write;
      }
    } else if path in table {
      assert Written(calls) == map[];
    }
  }

  // ---------------------------------------------------------------------
  // The unit test's fixtures.
  // ---------------------------------------------------------------------

  /** One archive's settings as the test's fixture lays them out. */
  function ArchiveFixture(title: string, description: string): Setting
  {
    Group([
      Node("show", Leaf(Bool(true))),
      Node("title", Leaf(Str(title))),
      Node("metaDescription", Leaf(Str(description))),
      Node("advanced", Group([Node("showDateInGooglePreview", Leaf(Bool(true)))]))
    ])
  }

  /** `$full_settings_to_import`. */
  function FullArchives(): seq<Node>
  {
    [ Node("author", ArchiveFixture("Author Title", "Author Desc")),
      Node("date", ArchiveFixture("Date Title", "Date Desc")),
      Node("search", ArchiveFixture("Search Title", "Search Desc")) ]
  }

  /** `$flattened_settings_to_import`. */
  function FlattenedArchives(): Flat
  {
    [ Entry("/author/show", Bool(true)),
      Entry("/author/title", Str("Author Title")),
      Entry("/author/metaDescription", Str("Author Desc")),
      Entry("/author/advanced/showDateInGooglePreview", Bool(true)),
      Entry("/date/show", Bool(true)),
      Entry("/date/title", Str("Date Title")),
      Entry("/date/metaDescription", Str("Date Desc")),
      Entry("/date/advanced/showDateInGooglePreview", Bool(true)),
      Entry("/search/show", Bool(true)),
      Entry("/search/title", Str("Search Title")),
      Entry("/search/metaDescription", Str("Search Desc")),
      Entry("/search/advanced/showDateInGooglePreview", Bool(true)) ]
  }

  /** The `postypes` and `taxonomies` siblings the query fixtures carry. */
  function OtherAppearance(): seq<Node>
  {
    [ Node("postypes", Group([Node("post", Group([
        Node("title", Leaf(Str("title1"))), Node("metaDescription", Leaf(Str("desc1")))]))])),
      Node("taxonomies", Group([Node("category", Group([
        Node("title", Leaf(Str("title1"))), Node("metaDescription", Leaf(Str("desc1")))]))])) ]
  }

  function Blob(appearance: seq<Node>): Option<Setting>
  {
    Some(Group([Node("searchAppearance", Group(appearance))]))
  }

  /** `test_flatten_settings`: the fixture flattens to the expected array,
      entry for entry and in order, as the test's `===` demands. */
  lemma FlattenFixture()
    ensures WellFormed(FullArchives())
    ensures Flatten("", FullArchives()) == FlattenedArchives()
  {
    FullArchivesFlat();
    var e := FlattenedArchives();
    FixtureSlices();
    Split3(e, 4, 8);
  }

  lemma Split3<T>(e: seq<T>, i: nat, j: nat)
    requires i <= j <= |e|
    ensures e == e[..i] + e[i..j] + e[j..]
  {
  }

  lemma FixtureSlices()
    ensures FixtureEntries("" + "/" + "author", "Author Title", "Author Desc") == FlattenedArchives()[..4]
    ensures FixtureEntries("" + "/" + "date", "Date Title", "Date Desc") == FlattenedArchives()[4..8]
    ensures FixtureEntries("" + "/" + "search", "Search Title", "Search Desc") == FlattenedArchives()[8..]
  {
    FixturePaths("author", "Author Title", "Author Desc");
    FixturePaths("date", "Date Title", "Date Desc");
    FixturePaths("search", "Search Title", "Search Desc");
    AuthorLiterals();
    AuthorFlagLiteral();
    DateLiterals();
    DateFlagLiteral();
    SearchLiterals();
    SearchFlagLiteral();
  }

  lemma AuthorLiterals()
    ensures "/" + "author" + "/show" == "/author/show"
    ensures "/" + "author" + "/title" == "/author/title"
    ensures "/" + "author" + "/metaDescription" == "/author/metaDescription"
  {
  }

  lemma AuthorFlagLiteral()
    ensures "/" + "author" + "/advanced/showDateInGooglePreview" == "/author/advanced/showDateInGooglePreview"
  {
  }

  lemma DateLiterals()
    ensures "/" + "date" + "/show" == "/date/show"
    ensures "/" + "date" + "/title" == "/date/title"
    ensures "/" + "date" + "/metaDescription" == "/date/metaDescription"
  {
  }

  lemma DateFlagLiteral()
    ensures "/" + "date" + "/advanced/showDateInGooglePreview" == "/date/advanced/showDateInGooglePreview"
  {
  }

  lemma SearchLiterals()
    ensures "/" + "search" + "/show" == "/search/show"
    ensures "/" + "search" + "/title" == "/search/title"
    ensures "/" + "search" + "/metaDescription" == "/search/metaDescription"
  {
  }

  lemma SearchFlagLiteral()
    ensures "/" + "search" + "/advanced/showDateInGooglePreview" == "/search/advanced/showDateInGooglePreview"
  {
  }

  /** The flattened fixture, with its paths still written as joins. */
  lemma FullArchivesFlat()
    ensures WellFormed(FullArchives())
    ensures Flatten("", FullArchives()) ==
              FixtureEntries("" + "/" + "author", "Author Title", "Author Desc") +
              FixtureEntries("" + "/" + "date", "Date Title", "Date Desc") +
              FixtureEntries("" + "/" + "search", "Search Title", "Search Desc")
  {
    var cs := FullArchives();
    ArchiveFixtureFlat("" + "/" + "author", "Author Title", "Author Desc");
    ArchiveFixtureFlat("" + "/" + "date", "Date Title", "Date Desc");
    ArchiveFixtureFlat("" + "/" + "search", "Search Title", "Search Desc");
    FlattenThree("", cs[0], cs[1], cs[2]);
  }

  /** A three-member settings array with distinct, `/`-free keys flattens to
      its members' entries in order. */
  lemma FlattenThree(prefix: string, a: Node, b: Node, c: Node)
    requires NodeWellFormed(a) && NodeWellFormed(b) && NodeWellFormed(c)
    requires a.key != b.key && a.key != c.key && b.key != c.key
    ensures WellFormed([a, b, c]) && Names([a, b, c]) == [a.key, b.key, c.key]
    ensures Flatten(prefix, [a, b, c]) == NodeEntries(prefix, a) + NodeEntries(prefix, b) + NodeEntries(prefix, c)
  {
    FlattenTwo(prefix, a, b);
    assert [a, b] + [c] == [a, b, c];
    WellFormedSnoc([a, b], c);
    FlattenSnoc(prefix, [a, b], c);
  }

  lemma FlattenTwo(prefix: string, a: Node, b: Node)
    requires NodeWellFormed(a) && NodeWellFormed(b) && a.key != b.key
    ensures WellFormed([a, b]) && Names([a, b]) == [a.key, b.key]
    ensures Flatten(prefix, [a, b]) == NodeEntries(prefix, a) + NodeEntries(prefix, b)
  {
    FlattenOne(prefix, a);
    assert [a] + [b] == [a, b];
    WellFormedSnoc([a], b);
    FlattenSnoc(prefix, [a], b);
  }

  lemma FlattenOne(prefix: string, a: Node)
    requires NodeWellFormed(a)
    ensures WellFormed([a]) && Names([a]) == [a.key]
    ensures Flatten(prefix, [a]) == NodeEntries(prefix, a)
  {
    assert [] + [a] == [a];
    WellFormedSnoc([], a);
    FlattenSnoc(prefix, [], a);
  }

  /** The four entries one fixture archive flattens to under `p`. */
  function FixtureEntries(p: string, title: string, description: string): Flat
  {
    [ Entry(p + "/" + "show", Bool(true)),
      Entry(p + "/" + "title", Str(title)),
      Entry(p + "/" + "metaDescription", Str(description)),
      Entry(p + "/" + "advanced" + "/" + "showDateInGooglePreview", Bool(true)) ]
  }

  lemma FixturePaths(name: string, title: string, description: string)
    ensures FixtureEntries("" + "/" + name, title, description) ==
              [ Entry("/" + name + "/show", Bool(true)),
                Entry("/" + name + "/title", Str(title)),
                Entry("/" + name + "/metaDescription", Str(description)),
                Entry("/" + name + "/advanced/showDateInGooglePreview", Bool(true)) ]
  {
    var p := "/" + name;
    assert "" + "/" + name == p;
    SuffixLiterals();
    FlagSuffixLiterals();
    Assoc(p, "/", "show");
    Assoc(p, "/", "title");
    Assoc(p, "/", "metaDescription");
    Assoc(p, "/", "advanced");
    Assoc(p + "/advanced", "/", "showDateInGooglePreview");
    Assoc(p, "/advanced", "/showDateInGooglePreview");
  }

  lemma SuffixLiterals()
    ensures "/" + "show" == "/show"
    ensures "/" + "title" == "/title"
    ensures "/" + "metaDescription" == "/metaDescription"
  {
  }

  lemma FlagSuffixLiterals()
    ensures "/" + "advanced" == "/advanced"
    ensures "/" + "showDateInGooglePreview" == "/showDateInGooglePreview"
    ensures "/advanced" + "/showDateInGooglePreview" == "/advanced/showDateInGooglePreview"
  {
  }

  lemma Assoc(p: string, a: string, b: string)
    ensures p + a + b == p + (a + b)
  {
  }

  /** One archive of the fixture flattens to its four entries under `p`. */
  lemma ArchiveFixtureFlat(p: string, title: string, description: string)
    ensures WellFormed(ArchiveFixture(title, description).children)
    ensures Flatten(p, ArchiveFixture(title, description).children) == FixtureEntries(p, title, description)
  {
    var ch := ArchiveFixture(title, description).children;
    ArchiveFixtureKeys(title, description);
    FlattenFour(p, ch[0], ch[1], ch[2], ch[3]);
    ArchiveFixtureParts(p, title, description);
  }

  /** The fixture archive's members contribute its four entries. */
  lemma ArchiveFixtureParts(p: string, title: string, description: string)
    ensures var ch := ArchiveFixture(title, description).children;
      NodeEntries(p, ch[0]) + NodeEntries(p, ch[1]) + NodeEntries(p, ch[2]) + NodeEntries(p, ch[3]) ==
      FixtureEntries(p, title, description)
  {
    var ch := ArchiveFixture(title, description).children;
    ArchiveFixtureKeys(title, description);
    FlattenOne(p + "/" + "advanced", ch[3].setting.children[0]);
  }

  /** The fixture archive's keys are distinct and free of `/`. */
  lemma ArchiveFixtureKeys(title: string, description: string)
    ensures var ch := ArchiveFixture(title, description).children;
      && ch == [ch[0], ch[1], ch[2], ch[3]]
      && NodeWellFormed(ch[0]) && NodeWellFormed(ch[1]) && NodeWellFormed(ch[2])
      && ch[3].setting.Group? && ch[3].setting.children == [ch[3].setting.children[0]]
      && NodeWellFormed(ch[3].setting.children[0])
      && ch[0].key != ch[1].key && ch[0].key != ch[2].key && ch[1].key != ch[2].key
      && ch[3].key != ch[0].key && ch[3].key != ch[1].key && ch[3].key != ch[2].key
  {
  }

  lemma FlattenFour(prefix: string, a: Node, b: Node, c: Node, d: Node)
    requires NodeWellFormed(a) && NodeWellFormed(b) && NodeWellFormed(c) && NodeWellFormed(d)
    requires a.key != b.key && a.key != c.key && b.key != c.key
    requires d.key != a.key && d.key != b.key && d.key != c.key
    ensures WellFormed([a, b, c, d])
    ensures Flatten(prefix, [a, b, c, d]) ==
              NodeEntries(prefix, a) + NodeEntries(prefix, b) + NodeEntries(prefix, c) + NodeEntries(prefix, d)
  {
    FlattenThree(prefix, a, b, c);
    assert [a, b, c] + [d] == [a, b, c, d];
    WellFormedSnoc([a, b, c], d);
    FlattenSnoc(prefix, [a, b, c], d);
  }

  /** `$array[$key]` finds a member of a three-member array by its key. */
  lemma LookupFirstOfThree(x: Node, y: Node, z: Node)
    requires y.key != x.key && z.key != x.key
    ensures Lookup([x, y, z], x.key) == Some(x.setting)
  {
    var cs := [x, y, z];
    assert cs[..2] == [x, y] && [x, y][..1] == [x] && [x][..0] == [];
  }

  /** The first row of `provider_query`: only `searchAppearance.archives` is
      flattened; `postypes` and `taxonomies` contribute nothing. */
  lemma QueryFullSettings()
    ensures Query(FullSettings()) == FlattenedArchives()
  {
    var appearance := [Node("archives", Group(FullArchives()))] + OtherAppearance();
    assert appearance == [appearance[0], appearance[1], appearance[2]];
    LookupFirstOfThree(appearance[0], appearance[1], appearance[2]);
    BlobArchives(appearance, FullArchives());
    FlattenFixture();
  }

  /** The blob's `searchAppearance` is the given array. */
  lemma BlobArchives(appearance: seq<Node>, archives: seq<Node>)
    requires Lookup(appearance, "archives") == Some(Group(archives))
    ensures Archives(Blob(appearance)) == Some(archives)
  {
    var top := [Node("searchAppearance", Group(appearance))];
    assert top[..0] == [];
  }

  /** The second row of `provider_query`: without `archives` there is nothing
      to import. */
  lemma QueryMissingSettings()
    ensures Query(MissingSettings()) == []
  {
  }

  /** `$malformed_settings`: an `archives` that is not an array yields nothing. */
  lemma QueryMalformedSettings()
    ensures Query(MalformedSettings()) == []
  {
  }

  /** A row of `provider_query`: the stored blob and the expected result. */
  datatype QueryCase = QueryCase(blob: Option<Setting>, expected: Flat)

  function FullSettings(): Option<Setting>
  {
    Blob([Node("archives", Group(FullArchives()))] + OtherAppearance())
  }

  function MissingSettings(): Option<Setting>
  {
    Blob(OtherAppearance())
  }

  function MalformedSettings(): Option<Setting>
  {
    Blob([Node("archives", Leaf(Str("not_array")))] + OtherAppearance())
  }

  /** `provider_query` as written: its last row repeats the missing-settings
      row, so the malformed blob is built but never queried. */
  function ProviderQueryAsWritten(): seq<QueryCase>
  {
    [ QueryCase(FullSettings(), FlattenedArchives()),
      QueryCase(MissingSettings(), []),
      QueryCase(MissingSettings(), []) ]
  }

  /** `provider_query` with the third row built from the malformed blob, as
      its fixture names intend. */
  function ProviderQuery(): seq<QueryCase>
  {
    [ QueryCase(FullSettings(), FlattenedArchives()),
      QueryCase(MissingSettings(), []),
      QueryCase(MalformedSettings(), []) ]
  }

  /** The rows as written never query the malformed blob: the third row is
      the second one again. */
  lemma ProviderQueryRepeatsRow()
    ensures ProviderQueryAsWritten()[2] == ProviderQueryAsWritten()[1]
    ensures forall c :: c in ProviderQueryAsWritten() ==> c.blob != MalformedSettings()
  {
    var rows := ProviderQueryAsWritten();
    MalformedDiffers();
    assert forall c :: c in rows ==> c == rows[0] || c == rows[1];
  }

  lemma MalformedDiffers()
    ensures MalformedSettings() != FullSettings() && MalformedSettings() != MissingSettings()
  {
    var m := MalformedSettings().value.children[0].setting.children;
    var f := FullSettings().value.children[0].setting.children;
    assert m[0].setting.Leaf? && f[0].setting.Group?;
    assert |m| != |MissingSettings().value.children[0].setting.children|;
  }

  /** `test_query`: every row of the intended provider holds. */
  lemma QueryMatchesProvider()
    ensures forall c :: c in ProviderQuery() ==> Query(c.blob) == c.expected
  {
    var rows := ProviderQuery();
    forall c | c in rows ensures Query(c.blob) == c.expected {
      if c == rows[0] {
        QueryFullSettings();
      } else if c == rows[1] {
        QueryMissingSettings();
      } else {
        QueryMalformedSettings();
      }
    }
  }

  /** A row of `provider_map`: the setting path and value, the number of
      `get_default` and `set` calls, and the number of replacevar transforms. */
  datatype MapCase = MapCase(setting: string, value: Scalar, times: nat, transformTimes: nat)

  function ProviderMap(): seq<MapCase>
  {
    [ MapCase("/author/title", Str("Author Title"), 1, 1),
      MapCase("/author/metaDescription", Str("Author Desc"), 1, 1),
      MapCase("/author/advanced/robotsMeta/noindex", Bool(true), 1, 0),
      MapCase("/date/show", Str("Date Title"), 0, 0),
      MapCase("/date/metaDescription", Str("Date Title"), 1, 1),
      MapCase("/date/advanced/robotsMeta/noindex", Bool(true), 1, 0),
      MapCase("/search/title", Str("Search Title"), 1, 1),
      MapCase("/randomSetting", Str("randomeValue"), 0, 0) ]
  }

  /** What `provider_map` reveals of the action's mapping table: titles and
      descriptions go through the replacevar handler, `noindex` settings
      through another transform, and `/date/show` and `/randomSetting` are not
      mapped. */
  predicate AgreesWithProvider(table: map<string, Rule>)
  {
    && "/author/title" in table && table["/author/title"].transform == ReplaceVars
    && "/author/metaDescription" in table && table["/author/metaDescription"].transform == ReplaceVars
    && "/date/metaDescription" in table && table["/date/metaDescription"].transform == ReplaceVars
    && "/search/title" in table && table["/search/title"].transform == ReplaceVars
    && "/author/advanced/robotsMeta/noindex" in table && table["/author/advanced/robotsMeta/noindex"].transform == Custom
    && "/date/advanced/robotsMeta/noindex" in table && table["/date/advanced/robotsMeta/noindex"].transform == Custom
    && "/date/show" !in table
    && "/randomSetting" !in table
  }

  /** `test_map`: with every destination default non-`null` (the mock answers
      `'not_null'`), each provider row makes exactly the calls it expects. */
  lemma MapMatchesProvider(table: map<string, Rule>, defaults: map<string, Scalar>,
                           replacevars: Scalar -> Scalar, custom: Scalar -> Scalar)
    requires AgreesWithProvider(table)
    requires forall p :: p in table ==> DefaultOf(defaults, table[p].destination) != Null
    ensures forall c :: c in ProviderMap() ==>
              && Reads(Map(table, defaults, replacevars, custom, c.setting, c.value)) == c.times
              && Writes(Map(table, defaults, replacevars, custom, c.setting, c.value)) == c.times
              && Transforms(Map(table, defaults, replacevars, custom, c.setting, c.value)) == c.transformTimes
    ensures forall c, x :: c in ProviderMap() && x in Map(table, defaults, replacevars, custom, c.setting, c.value) ==>
              (x.TransformReplacevars? ==> x.input == c.value) && (x.GetDefault? ==> x.option == table[c.setting].destination)
  {
    forall c | c in ProviderMap()
      ensures && Reads(Map(table, defaults, replacevars, custom, c.setting, c.value)) == c.times
              && Writes(Map(table, defaults, replacevars, custom, c.setting, c.value)) == c.times
              && Transforms(Map(table, defaults, replacevars, custom, c.setting, c.value)) == c.transformTimes
    {
      assert c.times == 1 <==> c.setting in table;
      assert c.transformTimes == 1 <==> c.setting in table && table[c.setting].transform == ReplaceVars;
    }
  }
}
