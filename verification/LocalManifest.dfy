/** The local install manifest (launcher/device_state.py): what is recorded per
    device, how it is written to devices/manifest.json, and how it is read back.

    The document is JSON with ordered objects, because the order of categories
    decides the order of a record's packages. */
module LocalManifest {
  import opened Options
  import opened OrderedDict
  import opened StableSort

  // ----- records -----

  datatype Package = Package(category: string, key: string, isDirectory: bool, sha256: string)
  datatype Record = Record(updatedAt: Option<string>, sha256: Option<string>, packages: seq<Package>)

  predicate Is(p: Package, category: string, key: string) { p.category == category && p.key == key }

  /** `find_package`: the first match. */
  function FindPackage(packages: seq<Package>, category: string, key: string): Option<Package> {
    if packages == [] then None
    else if Is(packages[0], category, key) then Some(packages[0])
    else FindPackage(packages[1..], category, key)
  }

  /** `drop_package`. */
  function DropPackage(packages: seq<Package>, category: string, key: string): seq<Package> {
    Filter((p: Package) => !Is(p, category, key), packages)
  }

  // ----- documents -----

  datatype Node = Scalar | Text(s: string) | Array(items: seq<Node>) | Object(fields: Dict<Node>)

  function Field(n: Node, key: string): Option<Node> { if n.Object? then Get(n.fields, key) else None }

  function TextField(n: Node, key: string): Option<string> {
    var f := Field(n, key);
    if f.Some? && f.value.Text? then Some(f.value.s) else None
  }

  /** The string value of a key, if it has one that is not empty. */
  function FullText(n: Node, key: string): Option<string> {
    var t := TextField(n, key);
    if t.Some? && t.value != "" then t else None
  }

  // ----- saving -----

  /** `categories.setdefault(category, []).append(...)`. */
  function AddPackage(categories: Dict<seq<Package>>, p: Package): Dict<seq<Package>> {
    Set(categories, p.category, (if p.category in categories.at then categories.at[p.category] else []) + [p])
  }

  /** The packages by category, categories in the order they first occur. */
  function Categories(packages: seq<Package>): Dict<seq<Package>> {
    if packages == [] then Empty() else AddPackage(Categories(packages[..|packages| - 1]), packages[|packages| - 1])
  }

  function PackageNode(p: Package): Node {
    Object(Set(Set(Empty(), if p.isDirectory then "directory" else "file", Text(p.key)), "sha256", Text(p.sha256)))
  }

  function PackageNodes(packages: seq<Package>): Node {
    Array(seq(|packages|, i requires 0 <= i < |packages| => PackageNode(packages[i])))
  }

  function CategoriesNode(categories: Dict<seq<Package>>): Node {
    Object(Dict(categories.keys, map c | c in categories.at :: PackageNodes(categories.at[c])))
  }

  function WithText(d: Dict<Node>, key: string, v: Option<string>): Dict<Node> {
    if v.Some? then Set(d, key, Text(v.value)) else d
  }

  function EntryTexts(name: string, r: Record): Dict<Node> {
    WithText(WithText(Set(Empty(), "name", Text(name)), "updated_at", r.updatedAt), "sha256", r.sha256)
  }

  function EntryNode(name: string, r: Record): Node {
    var e := EntryTexts(name, r);
    Object(if r.packages != [] then Set(e, "additional_packages", CategoriesNode(Categories(r.packages))) else e)
  }

  // ----- loading -----

  function ParsePackage(category: string, item: Node): Option<Package> {
    if !item.Object? || FullText(item, "sha256").None? then None
    else if FullText(item, "file").Some? then
      Some(Package(category, FullText(item, "file").value, false, FullText(item, "sha256").value))
    else if FullText(item, "directory").Some? then
      Some(Package(category, FullText(item, "directory").value, true, FullText(item, "sha256").value))
    else None
  }

  function ParseItems(category: string, items: seq<Node>): seq<Package> {
    if items == [] then []
    else
      var (front, p) := (ParseItems(category, items[..|items| - 1]), ParsePackage(category, items[|items| - 1]));
      if p.Some? then front + [p.value] else front
  }

  function ParseEntries(category: string, n: Option<Node>): seq<Package> {
    if n.Some? && n.value.Array? then ParseItems(category, n.value.items) else []
  }

  /** The lists of the first n names, one after the other. */
  function Chain<T>(names: seq<string>, lists: map<string, seq<T>>, n: nat): seq<T>
    requires n <= |names| && forall k :: k in names ==> k in lists
  {
    if n == 0 then [] else Chain(names, lists, n - 1) + lists[names[n - 1]]
  }

  function ParsePackages(raw: Option<Node>): seq<Package> {
    if raw.Some? && raw.value.Object? then
      var d := raw.value.fields;
      Chain(d.keys, map k | k in d.keys :: ParseEntries(k, Get(d, k)), |d.keys|)
    else []
  }

  function ParseRecord(item: Node): Record {
    Record(TextField(item, "updated_at"), FullText(item, "sha256"), ParsePackages(Field(item, "additional_packages")))
  }

  /** The entries of the current list format; a later entry of a name replaces an earlier one. */
  function LoadList(items: seq<Node>): Dict<Record> {
    if items == [] then Empty()
    else
      var (front, item) := (LoadList(items[..|items| - 1]), items[|items| - 1]);
      if item.Object? && TextField(item, "name").Some? then
        Set(front, TextField(item, "name").value, ParseRecord(item))
      else front
  }

  /** The older format: name -> timestamp, or name -> {"updated_at": timestamp}. */
  function LegacyRecord(v: Option<Node>): Option<Record> {
    if v.None? then None
    else if TextField(v.value, "updated_at").Some? then Some(Record(TextField(v.value, "updated_at"), None, []))
    else if v.value.Text? then Some(Record(Some(v.value.s), None, []))
    else None
  }

  function LoadLegacy(d: Dict<Node>, n: nat): Dict<Record>
    requires n <= |d.keys|
  {
    if n == 0 then Empty()
    else
      var (front, r) := (LoadLegacy(d, n - 1), LegacyRecord(Get(d, d.keys[n - 1])));
      if r.Some? then Set(front, d.keys[n - 1], r.value) else front
  }

  /** The manifest file: absent, unreadable, or parsed. */
  datatype Manifest = NoFile | Unreadable | Parsed(doc: Node)

  /** `load_local`: an unreadable manifest counts as an empty one. */
  function Load(m: Manifest): Dict<Record> {
    if !m.Parsed? then Empty()
    else
      var bundles := Field(m.doc, "bundles");
      if bundles.None? then Empty()
      else if bundles.value.Array? then LoadList(bundles.value.items)
      else if bundles.value.Object? then LoadLegacy(bundles.value.fields, |bundles.value.fields.keys|)
      else Empty()
  }

  /** The timestamp in an entry of the older format: a text, or the text of
      `updated_at`. */
  predicate LegacyTime(v: Node, time: string) {
    v == Text(time) || (v.Object? && "updated_at" in v.fields.at && v.fields.at["updated_at"] == Text(time))
  }

  lemma {:induction false} LegacyIs(d: Dict<Node>, n: nat, name: string)
    requires ValidDict(d) && n <= |d.keys|
    ensures
      var loaded := LoadLegacy(d, n);
      && (name in loaded.at <==> name in d.keys[..n] && exists time :: LegacyTime(d.at[name], time))
      && (name in loaded.at ==> exists time :: LegacyTime(d.at[name], time) && loaded.at[name] == Record(Some(time), None, []))
  {
    if n > 0 {
      LegacyIs(d, n - 1, name);
      var key := d.keys[n - 1];
      assert key !in d.keys[..n - 1];
      assert d.keys[..n] == d.keys[..n - 1] + [key];
      LegacyRecordIs(d.at[key]);
    }
  }

  lemma LegacyRecordIs(v: Node)
    ensures LegacyRecord(Some(v)).Some? <==> exists time :: LegacyTime(v, time)
    ensures
      LegacyRecord(Some(v)).Some? ==>
        exists time :: LegacyTime(v, time) && LegacyRecord(Some(v)) == Some(Record(Some(time), None, []))
  {
    if TextField(v, "updated_at").Some? {
      assert LegacyTime(v, TextField(v, "updated_at").value);
    } else if v.Text? {
      assert LegacyTime(v, v.s);
    }
  }

  /** An older manifest has a device for each entry with a timestamp, and nothing but that
      timestamp of it. */
  lemma LegacyLoads(m: Manifest, d: Dict<Node>, name: string)
    requires m.Parsed? && Field(m.doc, "bundles") == Some(Object(d)) && ValidDict(d)
    ensures name in Load(m).at <==> name in d.at && exists time :: LegacyTime(d.at[name], time)
    ensures
      name in Load(m).at ==> exists time :: LegacyTime(d.at[name], time) && Load(m).at[name] == Record(Some(time), None, [])
  {
    LegacyIs(d, |d.keys|, name);
    assert d.keys[..|d.keys|] == d.keys;
  }

  /** The entry is an object of that name. */
  predicate EntryOf(item: Node, name: string) {
    item.Object? && "name" in item.fields.at && item.fields.at["name"] == Text(name)
  }

  predicate LastEntry(items: seq<Node>, name: string, i: nat)
    requires i < |items|
  {
    EntryOf(items[i], name) && forall j :: i < j < |items| ==> !EntryOf(items[j], name)
  }

  lemma LoadListNext(items: seq<Node>, name: string)
    requires items != []
    ensures
      var (front, last) := (items[..|items| - 1], items[|items| - 1]);
      Get(LoadList(items), name) == if EntryOf(last, name) then Some(ParseRecord(last)) else Get(LoadList(front), name)
  {}

  lemma {:induction false} NoEntryLoads(items: seq<Node>, name: string)
    requires forall j :: 0 <= j < |items| ==> !EntryOf(items[j], name)
    ensures Get(LoadList(items), name) == None
  {
    if items != [] {
      LoadListNext(items, name);
      NoEntryLoads(items[..|items| - 1], name);
    }
  }

  /** Of several entries of one name the last one counts. */
  lemma {:induction false} LastEntryLoads(items: seq<Node>, name: string, i: nat)
    requires i < |items| && LastEntry(items, name, i)
    ensures Get(LoadList(items), name) == Some(ParseRecord(items[i]))
    decreases |items|
  {
    LoadListNext(items, name);
    if i < |items| - 1 {
      LastEntryLoads(items[..|items| - 1], name, i);
    }
  }

  // ----- saving, continued: entries in the order of their lower-cased names -----

  function LowerChar(c: char): char { if 'A' <= c <= 'Z' then c - 'A' + 'a' else c }

  function Lower(s: string): string { seq(|s|, i requires 0 <= i < |s| => LowerChar(s[i])) }

  /** Python's order on strings. */
  predicate Leq(a: string, b: string) {
    a == [] || (b != [] && (a[0] < b[0] || (a[0] == b[0] && Leq(a[1..], b[1..]))))
  }

  function ByLowerName(): (string, string) -> bool { (a: string, b: string) => Leq(Lower(a), Lower(b)) }

  function SaveOrder(installed: Dict<Record>): seq<string> { Sort(ByLowerName(), installed.keys) }

  function Entries(installed: Dict<Record>, names: seq<string>): seq<Node>
    requires forall n :: n in names ==> n in installed.at
  {
    seq(|names|, i requires 0 <= i < |names| => EntryNode(names[i], installed.at[names[i]]))
  }

  lemma {:induction false} LeqIsTotal(a: string, b: string)
    ensures Leq(a, b) || Leq(b, a)
  {
    if a != [] && b != [] && a[0] == b[0] {
      LeqIsTotal(a[1..], b[1..]);
    }
  }

  lemma {:induction false} LeqIsTransitive(a: string, b: string, c: string)
    requires Leq(a, b) && Leq(b, c)
    ensures Leq(a, c)
  {
    if a != [] && a[0] == b[0] == c[0] {
      LeqIsTransitive(a[1..], b[1..], c[1..]);
    }
  }

  lemma ByLowerNameIsOrder()
    ensures TotalPreorder(ByLowerName())
  {
    forall a, b
      ensures ByLowerName()(a, b) || ByLowerName()(b, a)
    {
      LeqIsTotal(Lower(a), Lower(b));
    }
    forall a, b, c | ByLowerName()(a, b) && ByLowerName()(b, c)
      ensures ByLowerName()(a, c)
    {
      LeqIsTransitive(Lower(a), Lower(b), Lower(c));
    }
  }

  lemma SaveOrderFacts(installed: Dict<Record>)
    requires ValidDict(installed)
    ensures forall n :: n in SaveOrder(installed) <==> n in installed.at
    ensures Distinct(SaveOrder(installed))
    ensures SortedBy(ByLowerName(), SaveOrder(installed))
  {
    ByLowerNameIsOrder();
    SortIsCorrect(ByLowerName(), installed.keys);
    var (a, b) := (SaveOrder(installed), installed.keys);
    forall n
      ensures n in a <==> n in b
    {
      assert n in multiset(a) <==> n in multiset(b);
    }
    PermutationIsDistinct(b, a);
  }

  lemma PermutationIsDistinct(a: seq<string>, b: seq<string>)
    requires Distinct(a) && multiset(a) == multiset(b)
    ensures Distinct(b)
  {
    forall i, j | 0 <= i < j < |b|
      ensures b[i] != b[j]
    {
      if b[i] == b[j] {
        TwoOccurrences(b, i, j);
        DistinctCounts(a, b[i]);
      }
    }
  }

  lemma {:induction false} DistinctCounts(a: seq<string>, x: string)
    requires Distinct(a)
    ensures multiset(a)[x] <= 1
  {
    if a != [] {
      DistinctCounts(a[1..], x);
      assert a == [a[0]] + a[1..];
      if a[0] == x {
        assert x !in a[1..];
        assert multiset(a[1..])[x] == 0;
      }
    }
  }

  function Save(installed: Dict<Record>): Node
    requires ValidDict(installed)
  {
    SaveOrderFacts(installed);
    ListDocument(Entries(installed, SaveOrder(installed)))
  }

  // ----- what survives a save and a load -----

  /** A package whose entry the reader accepts. */
  predicate Ok(p: Package) { p.key != "" && p.sha256 != "" }

  function IsOk(): Package -> bool { (p: Package) => Ok(p) }
  function InCategory(category: string): Package -> bool { (p: Package) => p.category == category }

  lemma {:induction false} CategoriesAreValid(packages: seq<Package>)
    ensures ValidDict(Categories(packages))
  {
    if packages != [] {
      CategoriesAreValid(packages[..|packages| - 1]);
    }
  }

  /** The packages regrouped by category, each group in its old order. */
  function Regroup(packages: seq<Package>): seq<Package> {
    CategoriesAreValid(packages);
    Chain(Categories(packages).keys, Categories(packages).at, |Categories(packages).keys|)
  }

  /** What a load makes of a saved record. */
  function Normalise(r: Record): Record {
    Record(r.updatedAt, if r.sha256 == Some("") then None else r.sha256, Filter(IsOk(), Regroup(r.packages)))
  }

  /** Each category holds exactly its packages, in their order. */
  lemma {:induction false} CategoryHolds(packages: seq<Package>, category: string)
    ensures
      var c := Categories(packages);
      && (category in c.at <==> Filter(InCategory(category), packages) != [])
      && (category in c.at ==> c.at[category] == Filter(InCategory(category), packages))
  {
    if packages != [] {
      var (front, p) := (packages[..|packages| - 1], packages[|packages| - 1]);
      CategoryHolds(front, category);
      assert packages == front + [p];
      FilterAppend(InCategory(category), front, [p]);
      assert [p][1..] == [];
    }
  }

  lemma PackageRoundTrip(p: Package)
    ensures ParsePackage(p.category, PackageNode(p)) == if Ok(p) then Some(p) else None
  {
    assert |"directory"| == 9 && |"file"| == 4 && |"sha256"| == 6;
  }

  /** The entry reads as the package, or is skipped if the reader cannot accept it. */
  predicate PackageReads(item: Node, category: string, p: Package) {
    ParsePackage(category, item) == if Ok(p) then Some(p) else None
  }

  lemma {:induction false} ItemsReadBack(items: seq<Node>, category: string, packages: seq<Package>)
    requires |items| == |packages|
    requires forall i :: 0 <= i < |items| ==> PackageReads(items[i], category, packages[i])
    ensures ParseItems(category, items) == Filter(IsOk(), packages)
  {
    if packages != [] {
      var (front, p) := (packages[..|packages| - 1], packages[|packages| - 1]);
      ItemsReadBack(items[..|items| - 1], category, front);
      assert packages == front + [p];
      FilterAppend(IsOk(), front, [p]);
      FilterOne(p);
      assert PackageReads(items[|items| - 1], category, p);
    }
  }

  lemma FilterOne(p: Package)
    ensures Filter(IsOk(), [p]) == if Ok(p) then [p] else []
  {
    assert [p][1..] == [];
  }

  lemma CategoryReadsBack(categories: Dict<seq<Package>>, c: string)
    requires c in categories.at && forall p :: p in categories.at[c] ==> p.category == c
    ensures ParseEntries(c, Get(CategoriesNode(categories).fields, c)) == Filter(IsOk(), categories.at[c])
  {
    var packages := categories.at[c];
    forall i | 0 <= i < |packages|
      ensures PackageReads(PackageNodes(packages).items[i], c, packages[i])
    {
      PackageRoundTrip(packages[i]);
    }
    ItemsReadBack(PackageNodes(packages).items, c, packages);
  }

  lemma {:induction false} ChainFiltered(names: seq<string>, lists: map<string, seq<Package>>,
                                         read: map<string, seq<Package>>, n: nat)
    requires n <= |names| && forall k :: k in names ==> k in lists && k in read && read[k] == Filter(IsOk(), lists[k])
    ensures Chain(names, read, n) == Filter(IsOk(), Chain(names, lists, n))
  {
    if n > 0 {
      ChainFiltered(names, lists, read, n - 1);
      FilterAppend(IsOk(), Chain(names, lists, n - 1), lists[names[n - 1]]);
    }
  }

  lemma PackagesRoundTrip(packages: seq<Package>)
    ensures
      ParsePackages(Some(CategoriesNode(Categories(packages)))) == Filter(IsOk(), Regroup(packages))
  {
    var categories := Categories(packages);
    var d := CategoriesNode(categories).fields;
    CategoriesAreValid(packages);
    var read := map k | k in d.keys :: ParseEntries(k, Get(d, k));
    forall c | c in categories.keys
      ensures read[c] == Filter(IsOk(), categories.at[c])
    {
      CategoryHolds(packages, c);
      FilterFacts(InCategory(c), packages);
      CategoryReadsBack(categories, c);
    }
    ChainFiltered(categories.keys, categories.at, read, |categories.keys|);
  }

  lemma FieldNamesDiffer()
    ensures "name" != "updated_at" && "name" != "sha256" && "name" != "additional_packages"
    ensures "updated_at" != "sha256" && "updated_at" != "additional_packages" && "sha256" != "additional_packages"
  {
    assert |"name"| == 4 && |"updated_at"| == 10 && |"sha256"| == 6 && |"additional_packages"| == 19;
  }

  lemma GetAfterSet(d: Dict<Node>, key: string, v: Node, other: string)
    ensures Get(Set(d, key, v), other) == if other == key then Some(v) else Get(d, other)
  {}

  function TextNode(v: Option<string>): Option<Node> { if v.Some? then Some(Text(v.value)) else None }

  lemma GetAfterText(d: Dict<Node>, key: string, v: Option<string>, other: string)
    ensures Get(WithText(d, key, v), other) == if other == key && v.Some? then TextNode(v) else Get(d, other)
  {}

  lemma EntryTextsAt(name: string, r: Record, key: string)
    ensures
      Get(EntryTexts(name, r), key)
      == if key == "sha256" && r.sha256.Some? then TextNode(r.sha256)
         else if key == "updated_at" && r.updatedAt.Some? then TextNode(r.updatedAt)
         else if key == "name" then Some(Text(name)) else None
  {
    var a := Set(Empty(), "name", Text(name));
    GetAfterSet(Empty(), "name", Text(name), key);
    GetAfterText(a, "updated_at", r.updatedAt, key);
    GetAfterText(WithText(a, "updated_at", r.updatedAt), "sha256", r.sha256, key);
  }

  function PackagesNode(packages: seq<Package>): Option<Node> {
    if packages != [] then Some(CategoriesNode(Categories(packages))) else None
  }

  lemma EntryFieldAt(name: string, r: Record, key: string)
    ensures EntryNode(name, r).Object?
    ensures
      Field(EntryNode(name, r), key)
      == if key == "additional_packages" && r.packages != [] then PackagesNode(r.packages)
         else Get(EntryTexts(name, r), key)
  {
    GetAfterSet(EntryTexts(name, r), "additional_packages", CategoriesNode(Categories(r.packages)), key);
  }

  lemma EntryFields(name: string, r: Record)
    ensures EntryNode(name, r).Object? && Field(EntryNode(name, r), "name") == Some(Text(name))
    ensures Field(EntryNode(name, r), "updated_at") == TextNode(r.updatedAt)
    ensures Field(EntryNode(name, r), "sha256") == TextNode(r.sha256)
    ensures Field(EntryNode(name, r), "additional_packages") == PackagesNode(r.packages)
  {
    FieldNamesDiffer();
    EntryFieldAt(name, r, "name");
    EntryFieldAt(name, r, "updated_at");
    EntryFieldAt(name, r, "sha256");
    EntryFieldAt(name, r, "additional_packages");
    EntryTextsAt(name, r, "name");
    EntryTextsAt(name, r, "updated_at");
    EntryTextsAt(name, r, "sha256");
    EntryTextsAt(name, r, "additional_packages");
  }

  lemma PackagesReadBack(packages: seq<Package>)
    ensures ParsePackages(PackagesNode(packages)) == Filter(IsOk(), Regroup(packages))
  {
    if packages != [] {
      PackagesRoundTrip(packages);
    }
  }

  lemma EntryRoundTrip(name: string, r: Record)
    ensures EntryNode(name, r).Object? && TextField(EntryNode(name, r), "name") == Some(name)
    ensures ParseRecord(EntryNode(name, r)) == Normalise(r)
  {
    EntryFields(name, r);
    PackagesReadBack(r.packages);
  }

  /** What a saved manifest reads back as: the same names in saved order, and every
      record normalised. */
  function Reloaded(installed: Dict<Record>): Dict<Record>
    requires ValidDict(installed)
  {
    Dict(SaveOrder(installed), map n | n in installed.at :: Normalise(installed.at[n]))
  }

  /** The entry reads as the given record under the given name. */
  predicate ReadsAs(item: Node, name: string, r: Record) {
    item.Object? && TextField(item, "name") == Some(name) && ParseRecord(item) == r
  }

  lemma {:induction false} LoadListOf(items: seq<Node>, names: seq<string>, records: map<string, Record>)
    requires |items| == |names| && Distinct(names)
    requires forall i :: 0 <= i < |names| ==> names[i] in records && ReadsAs(items[i], names[i], records[names[i]])
    ensures LoadList(items) == Dict(names, map n | n in names :: records[n])
  {
    if items != [] {
      var (front, name) := (names[..|names| - 1], names[|names| - 1]);
      LoadListOf(items[..|items| - 1], front, records);
      assert names == front + [name] && name !in front;
      assert ReadsAs(items[|items| - 1], name, records[name]);
    }
  }

  lemma EntriesReadBack(installed: Dict<Record>)
    requires ValidDict(installed)
    ensures
      var names := SaveOrder(installed);
      && Distinct(names) && (forall n :: n in names <==> n in installed.at)
      && forall i :: 0 <= i < |names| ==>
           ReadsAs(Entries(installed, names)[i], names[i], Normalise(installed.at[names[i]]))
  {
    SaveOrderFacts(installed);
    forall i | 0 <= i < |SaveOrder(installed)|
      ensures
        var names := SaveOrder(installed);
        ReadsAs(Entries(installed, names)[i], names[i], Normalise(installed.at[names[i]]))
    {
      EntryRoundTrip(SaveOrder(installed)[i], installed.at[SaveOrder(installed)[i]]);
    }
  }

  function ListDocument(items: seq<Node>): Node { Object(Set(Empty(), "bundles", Array(items))) }

  lemma LoadDocument(items: seq<Node>, names: seq<string>, records: map<string, Record>)
    requires |items| == |names| && Distinct(names) && forall n :: n in names <==> n in records
    requires forall i :: 0 <= i < |names| ==> ReadsAs(items[i], names[i], records[names[i]])
    ensures Load(Parsed(ListDocument(items))) == Dict(names, records)
  {
    LoadListOf(items, names, records);
    assert (map n | n in names :: records[n]) == records;
  }

  /** The round trip: saving and loading gives the same devices with their
      timestamps, hashes and packages, up to the normalisation of a load. */
  lemma SaveThenLoad(installed: Dict<Record>)
    requires ValidDict(installed)
    ensures Load(Parsed(Save(installed))) == Reloaded(installed) && ValidDict(Reloaded(installed))
  {
    EntriesReadBack(installed);
    LoadDocument(Entries(installed, SaveOrder(installed)), SaveOrder(installed), Reloaded(installed).at);
  }

  // ----- find_package -----

  lemma {:induction false} FindInAppend(a: seq<Package>, b: seq<Package>, category: string, key: string)
    ensures
      FindPackage(a + b, category, key)
      == if FindPackage(a, category, key).Some? then FindPackage(a, category, key) else FindPackage(b, category, key)
  {
    if a == [] {
      assert a + b == b;
    } else {
      FindInAppend(a[1..], b, category, key);
      assert (a + b)[1..] == a[1..] + b;
    }
  }

  lemma {:induction false} FindElsewhere(packages: seq<Package>, category: string, key: string)
    requires forall p :: p in packages ==> p.category != category
    ensures FindPackage(packages, category, key) == None
  {
    if packages != [] {
      FindElsewhere(packages[1..], category, key);
    }
  }

  lemma {:induction false} FindInCategory(packages: seq<Package>, category: string, key: string)
    ensures
      FindPackage(Filter(IsOk(), Filter(InCategory(category), packages)), category, key)
      == FindPackage(Filter(IsOk(), packages), category, key)
  {
    if packages != [] {
      FindInCategory(packages[1..], category, key);
    }
  }

  lemma {:induction false} FindInChain(names: seq<string>, lists: map<string, seq<Package>>, n: nat,
                                       category: string, key: string)
    requires n <= |names| && Distinct(names) && forall k :: k in names ==> k in lists
    requires forall k: string, p: Package :: k in names && p in lists[k] ==> p.category == k
    ensures
      FindPackage(Chain(names, lists, n), category, key)
      == if category in names[..n] then FindPackage(lists[category], category, key) else None
  {
    if n > 0 {
      FindInChain(names, lists, n - 1, category, key);
      FindInAppend(Chain(names, lists, n - 1), lists[names[n - 1]], category, key);
      assert names[..n] == names[..n - 1] + [names[n - 1]];
      if names[n - 1] == category {
        assert category !in names[..n - 1];
      } else {
        FindElsewhere(lists[names[n - 1]], category, key);
      }
    }
  }

  /** A load changes no answer of `find_package` except that entries without a key
      or a hash are gone. */
  lemma FindAfterLoad(r: Record, category: string, key: string)
    ensures
      FindPackage(Normalise(r).packages, category, key) == FindPackage(Filter(IsOk(), r.packages), category, key)
    ensures
      (forall p :: p in r.packages ==> Ok(p)) ==>
        FindPackage(Normalise(r).packages, category, key) == FindPackage(r.packages, category, key)
  {
    var c := Categories(r.packages);
    CategoriesAreValid(r.packages);
    var read := map k | k in c.keys :: Filter(IsOk(), c.at[k]);
    ChainFiltered(c.keys, c.at, read, |c.keys|);
    forall k: string, p: Package | k in c.keys && p in read[k]
      ensures p.category == k
    {
      CategoryHolds(r.packages, k);
      FilterFacts(IsOk(), c.at[k]);
      FilterFacts(InCategory(k), r.packages);
    }
    FindInChain(c.keys, read, |c.keys|, category, key);
    CategoryHolds(r.packages, category);
    FindInCategory(r.packages, category, key);
    FilterFacts(IsOk(), r.packages);
    assert c.keys[..|c.keys|] == c.keys;
  }

  // ----- saving again -----

  lemma CategoriesAppend(a: seq<Package>, p: Package)
    ensures Categories(a + [p]) == AddPackage(Categories(a), p)
  {
    assert (a + [p])[..|a + [p]| - 1] == a;
  }

  lemma SetTwice<V>(d: Dict<V>, key: string, v: V, w: V)
    ensures Set(Set(d, key, v), key, w) == Set(d, key, w)
  {
    assert Set(Set(d, key, v), key, w).at == Set(d, key, w).at;
  }

  lemma {:induction false} CategoriesOfBlock(a: seq<Package>, block: seq<Package>, category: string)
    requires category !in Categories(a).at && block != [] && forall p :: p in block ==> p.category == category
    ensures Categories(a + block) == Set(Categories(a), category, block)
  {
    var (front, last) := (block[..|block| - 1], block[|block| - 1]);
    assert block == front + [last] && a + block == (a + front) + [last];
    CategoriesAppend(a + front, last);
    if front == [] {
      assert a + front == a;
    } else {
      CategoriesOfBlock(a, front, category);
      SetTwice(Categories(a), category, front, block);
    }
  }

  /** The dictionary of the first n names. */
  function FirstOf<V>(names: seq<string>, lists: map<string, V>, n: nat): Dict<V>
    requires n <= |names| && forall k :: k in names ==> k in lists
  {
    Dict(names[..n], map k | k in names[..n] :: lists[k])
  }

  lemma FirstOfStep<V>(names: seq<string>, lists: map<string, V>, n: nat)
    requires 0 < n <= |names| && Distinct(names) && forall k :: k in names ==> k in lists
    ensures names[n - 1] !in FirstOf(names, lists, n - 1).at
    ensures FirstOf(names, lists, n) == Set(FirstOf(names, lists, n - 1), names[n - 1], lists[names[n - 1]])
  {
    assert names[..n] == names[..n - 1] + [names[n - 1]];
  }

  lemma {:induction false} CategoriesOfChain(names: seq<string>, lists: map<string, seq<Package>>, n: nat)
    requires n <= |names| && Distinct(names) && forall k :: k in names ==> k in lists && lists[k] != []
    requires forall k: string, p: Package :: k in names && p in lists[k] ==> p.category == k
    ensures Categories(Chain(names, lists, n)) == FirstOf(names, lists, n)
  {
    if n > 0 {
      CategoriesOfChain(names, lists, n - 1);
      FirstOfStep(names, lists, n);
      CategoriesOfBlock(Chain(names, lists, n - 1), lists[names[n - 1]], names[n - 1]);
    }
  }

  /** Regrouping keeps the categories, their order and their contents. */
  lemma RegroupIsStable(packages: seq<Package>)
    ensures Categories(Regroup(packages)) == Categories(packages)
  {
    var c := Categories(packages);
    CategoriesAreValid(packages);
    forall k | k in c.keys
      ensures c.at[k] != [] && forall p :: p in c.at[k] ==> p.category == k
    {
      CategoryHolds(packages, k);
      FilterFacts(InCategory(k), packages);
    }
    CategoriesOfChain(c.keys, c.at, |c.keys|);
    assert c.keys[..|c.keys|] == c.keys;
    assert (map k | k in c.keys :: c.at[k]) == c.at;
  }

  /** Nothing of the record is lost in a load. */
  predicate Loadable(r: Record) { r.sha256 != Some("") && forall p :: p in r.packages ==> Ok(p) }

  lemma {:induction false} ChainMembers(names: seq<string>, lists: map<string, seq<Package>>, n: nat)
    requires n <= |names| && forall k :: k in names ==> k in lists
    ensures forall p :: p in Chain(names, lists, n) <==> exists i :: 0 <= i < n && p in lists[names[i]]
  {
    if n > 0 {
      ChainMembers(names, lists, n - 1);
    }
  }

  /** Regrouping neither adds nor drops a package. */
  lemma RegroupMembers(packages: seq<Package>, p: Package)
    ensures p in Regroup(packages) <==> p in packages
  {
    var c := Categories(packages);
    CategoriesAreValid(packages);
    ChainMembers(c.keys, c.at, |c.keys|);
    CategoryHolds(packages, p.category);
    FilterFacts(InCategory(p.category), packages);
    if p in packages {
      var i :| 0 <= i < |c.keys| && c.keys[i] == p.category;
      assert p in c.at[c.keys[i]];
    } else if p in Regroup(packages) {
      var i :| 0 <= i < |c.keys| && p in c.at[c.keys[i]];
      CategoryHolds(packages, c.keys[i]);
      FilterFacts(InCategory(c.keys[i]), packages);
    }
  }

  lemma NormalisedIsLoadable(r: Record)
    ensures Loadable(Normalise(r))
  {
    FilterFacts(IsOk(), Regroup(r.packages));
  }

  lemma LoadableEntry(name: string, r: Record)
    requires Loadable(r)
    ensures Normalise(r).packages == Regroup(r.packages)
    ensures EntryNode(name, Normalise(r)) == EntryNode(name, r)
  {
    forall p
      ensures p in Regroup(r.packages) <==> p in r.packages
    {
      RegroupMembers(r.packages, p);
    }
    FilterFacts(IsOk(), Regroup(r.packages));
    RegroupIsStable(r.packages);
    if r.packages != [] { assert r.packages[0] in Regroup(r.packages); }
    if Regroup(r.packages) != [] { assert Regroup(r.packages)[0] in r.packages; }
  }

  lemma PackageNodeDecides(p: Package, q: Package)
    requires PackageNode(p) == PackageNode(q)
    ensures Ok(p) <==> Ok(q)
  {
    var (a, b) := (PackageNode(p).fields, PackageNode(q).fields);
    assert |"directory"| == 9 && |"file"| == 4 && |"sha256"| == 6;
    assert Get(a, "sha256") == Get(b, "sha256");
    assert Get(a, "file") == Get(b, "file") && Get(a, "directory") == Get(b, "directory");
  }

  lemma SameCategoriesNode(a: seq<Package>, b: seq<Package>)
    requires CategoriesNode(Categories(a)) == CategoriesNode(Categories(b))
    requires forall p :: p in b ==> Ok(p)
    ensures forall p :: p in a ==> Ok(p)
  {
    forall p | p in a
      ensures Ok(p)
    {
      var c := p.category;
      CategoryHolds(a, c);
      FilterFacts(InCategory(c), a);
      CategoryHolds(b, c);
      FilterFacts(InCategory(c), b);
      var (x, y) := (Categories(a).at[c], CategoriesNode(Categories(a)).fields.at);
      assert c in y && y == CategoriesNode(Categories(b)).fields.at;
      assert y[c] == PackageNodes(x) == PackageNodes(Categories(b).at[c]);
      var i :| 0 <= i < |x| && x[i] == p;
      assert PackageNodes(x).items[i] == PackageNodes(Categories(b).at[c]).items[i];
      PackageNodeDecides(p, Categories(b).at[c][i]);
    }
  }

  /** An entry is written back identically exactly when the load lost nothing. */
  lemma SameEntry(name: string, r: Record)
    ensures EntryNode(name, Normalise(r)) == EntryNode(name, r) <==> Loadable(r)
  {
    if Loadable(r) {
      LoadableEntry(name, r);
    } else if EntryNode(name, Normalise(r)) == EntryNode(name, r) {
      EntryFields(name, r);
      EntryFields(name, Normalise(r));
      NormalisedIsLoadable(r);
      if r.packages != [] && Normalise(r).packages != [] {
        SameCategoriesNode(r.packages, Normalise(r).packages);
      }
      assert false;
    }
  }

  lemma SameEntries(before: Dict<Record>, after: Dict<Record>, names: seq<string>)
    requires forall n :: n in names <==> n in before.at
    requires forall n :: n in before.at ==> n in after.at && after.at[n] == Normalise(before.at[n])
    ensures
      Entries(after, names) == Entries(before, names) <==> forall n :: n in before.at ==> Loadable(before.at[n])
  {
    var (a, b) := (Entries(after, names), Entries(before, names));
    forall i | 0 <= i < |names|
      ensures a[i] == b[i] <==> Loadable(before.at[names[i]])
    {
      SameEntry(names[i], before.at[names[i]]);
    }
    if a == b {
      forall n | n in before.at
        ensures Loadable(before.at[n])
      {
        var i :| 0 <= i < |names| && names[i] == n;
        assert a[i] == b[i];
      }
    } else {
      var i :| 0 <= i < |names| && a[i] != b[i];
      assert !Loadable(before.at[names[i]]);
    }
  }

  lemma ReloadedOrder(installed: Dict<Record>)
    requires ValidDict(installed)
    ensures ValidDict(Reloaded(installed)) && SaveOrder(Reloaded(installed)) == SaveOrder(installed)
  {
    SaveOrderFacts(installed);
    SortIsIdempotent(ByLowerName(), SaveOrder(installed));
  }

  /** Saving what a load returns writes the identical document exactly when every
      record had a usable hash and usable packages. */
  lemma SecondSave(installed: Dict<Record>)
    requires ValidDict(installed)
    ensures ValidDict(Reloaded(installed))
    ensures
      Save(Reloaded(installed)) == Save(installed)
      <==> forall n :: n in installed.at ==> Loadable(installed.at[n])
  {
    ReloadedOrder(installed);
    SaveOrderFacts(installed);
    var names := SaveOrder(installed);
    SameEntries(installed, Reloaded(installed), names);
    SameDocument(Entries(Reloaded(installed), names), Entries(installed, names));
  }

  lemma SameDocument(a: seq<Node>, b: seq<Node>)
    ensures ListDocument(a) == ListDocument(b) <==> a == b
  {
    assert Get(ListDocument(a).fields, "bundles") == Some(Array(a));
    assert Get(ListDocument(b).fields, "bundles") == Some(Array(b));
  }

  /** Whatever was installed, after one save and load the document stays as it is. */
  lemma SavingSettles(installed: Dict<Record>)
    requires ValidDict(installed)
    ensures ValidDict(Reloaded(installed)) && ValidDict(Reloaded(Reloaded(installed)))
    ensures Save(Reloaded(Reloaded(installed))) == Save(Reloaded(installed))
  {
    SaveThenLoad(installed);
    SaveThenLoad(Reloaded(installed));
    forall n | n in Reloaded(installed).at
      ensures Loadable(Reloaded(installed).at[n])
    {
      NormalisedIsLoadable(installed.at[n]);
    }
    SecondSave(Reloaded(installed));
  }

  // ----- the loops -----

  method CollectItems(out: seq<Package>, category: string, entries: seq<Node>) returns (after: seq<Package>)
    ensures after == out + ParseItems(category, entries)
  {
    after := out;
    for i := 0 to |entries|
      invariant after == out + ParseItems(category, entries[..i])
    {
      var item := entries[i];
      assert entries[..i + 1][..i] == entries[..i];
      if item.Object? {
        var (sha, file, dir) := (TextField(item, "sha256"), TextField(item, "file"), TextField(item, "directory"));
        if sha.Some? && sha.value != "" {
          if file.Some? && file.value != "" {
            after := after + [Package(category, file.value, false, sha.value)];
          } else if dir.Some? && dir.value != "" {
            after := after + [Package(category, dir.value, true, sha.value)];
          }
        }
      }
    }
    assert entries[..|entries|] == entries;
  }

  method ParseLocalPackages(raw: Option<Node>) returns (out: seq<Package>)
    requires raw.Some? && raw.value.Object? ==> ValidDict(raw.value.fields)
    ensures out == ParsePackages(raw)
  {
    out := [];
    if raw.None? || !raw.value.Object? {
      return;
    }
    var d := raw.value.fields;
    ghost var lists := map k | k in d.keys :: ParseEntries(k, Get(d, k));
    for i := 0 to |d.keys|
      invariant out == Chain(d.keys, lists, i)
    {
      var (category, entries) := (d.keys[i], d.at[d.keys[i]]);
      if entries.Array? {
        out := CollectItems(out, category, entries.items);
      }
    }
  }

  /** Every object in the document has one value per key, as parsed JSON has. */
  ghost predicate WellFormed(n: Node) {
    match n
    case Scalar => true
    case Text(_) => true
    case Array(items) => forall i :: 0 <= i < |items| ==> WellFormed(items[i])
    case Object(fields) => ValidDict(fields) && forall k :: k in fields.at ==> WellFormed(fields.at[k])
  }

  method LoadEntry(item: Node) returns (r: Record)
    requires WellFormed(item)
    ensures r == ParseRecord(item)
  {
    var packages := ParseLocalPackages(Field(item, "additional_packages"));
    var s := TextField(item, "sha256");
    r := Record(TextField(item, "updated_at"), if s.Some? && s.value != "" then s else None, packages);
  }

  /** The body of `load_local`. */
  method LoadLocalManifest(m: Manifest) returns (installed: Dict<Record>)
    requires m.Parsed? ==> WellFormed(m.doc)
    ensures installed == Load(m)
  {
    installed := Empty();
    if !m.Parsed? || Field(m.doc, "bundles").None? {
      return;
    }
    var bundles := Field(m.doc, "bundles").value;
    if bundles.Array? {
      for i := 0 to |bundles.items|
        invariant installed == LoadList(bundles.items[..i])
      {
        var item := bundles.items[i];
        assert bundles.items[..i + 1][..i] == bundles.items[..i];
        if item.Object? && TextField(item, "name").Some? {
          var r := LoadEntry(item);
          installed := Set(installed, TextField(item, "name").value, r);
        }
      }
      assert bundles.items[..|bundles.items|] == bundles.items;
    } else if bundles.Object? {
      var d := bundles.fields;
      for i := 0 to |d.keys|
        invariant installed == LoadLegacy(d, i)
      {
        var v := d.at[d.keys[i]];
        if v.Object? && TextField(v, "updated_at").Some? {
          installed := Set(installed, d.keys[i], Record(TextField(v, "updated_at"), None, []));
        } else if v.Text? {
          installed := Set(installed, d.keys[i], Record(Some(v.s), None, []));
        }
      }
    }
  }

  /** `categories.setdefault(...).append(...)` for every package of a record. */
  method GroupPackages(packages: seq<Package>) returns (categories: Dict<seq<Package>>)
    ensures categories == Categories(packages)
  {
    categories := Empty();
    for i := 0 to |packages|
      invariant categories == Categories(packages[..i])
    {
      assert packages[..i + 1][..i] == packages[..i];
      categories := AddPackage(categories, packages[i]);
    }
    assert packages[..|packages|] == packages;
  }

  method StoreText(fields: Dict<Node>, key: string, v: Option<string>) returns (after: Dict<Node>)
    ensures after == WithText(fields, key, v)
  {
    after := fields;
    if v.Some? {
      after := Set(after, key, Text(v.value));
    }
  }

  method BuildEntry(name: string, r: Record) returns (entry: Node)
    ensures entry == EntryNode(name, r)
  {
    var fields := StoreText(Set(Empty(), "name", Text(name)), "updated_at", r.updatedAt);
    fields := StoreText(fields, "sha256", r.sha256);
    assert fields == EntryTexts(name, r);
    if r.packages != [] {
      var categories := GroupPackages(r.packages);
      fields := Set(fields, "additional_packages", CategoriesNode(categories));
    }
    entry := Object(fields);
  }

  method SaveLocalManifest(installed: Dict<Record>) returns (m: Manifest)
    requires ValidDict(installed)
    ensures m == Parsed(Save(installed))
  {
    SaveOrderFacts(installed);
    var bundles := BuildEntries(installed, SaveOrder(installed));
    m := Parsed(ListDocument(bundles));
  }

  /** The loop over the names. */
  method BuildEntries(installed: Dict<Record>, names: seq<string>) returns (bundles: seq<Node>)
    requires forall n :: n in names ==> n in installed.at
    ensures bundles == Entries(installed, names)
  {
    ghost var all := Entries(installed, names);
    bundles := [];
    for i := 0 to |names|
      invariant bundles == all[..i]
    {
      var entry := BuildEntry(names[i], installed.at[names[i]]);
      assert entry == all[i];
      bundles := bundles + [entry];
    }
  }
}
