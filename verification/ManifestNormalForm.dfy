/** The records a load can return (launcher/device_state.py): they are the ones a save
    and a load leave as they are. */
module ManifestNormalForm {
  import opened Options
  import opened OrderedDict
  import opened StableSort
  import opened LocalManifest

  lemma {:induction false} ChainPrefix(names: seq<string>, lists: map<string, seq<Package>>,
                                       more: seq<string>, others: map<string, seq<Package>>, n: nat)
    requires n <= |names| && (forall k :: k in names ==> k in lists)
    requires n <= |more| && (forall k :: k in more ==> k in others)
    requires forall i :: 0 <= i < n ==> names[i] == more[i] && lists[names[i]] == others[names[i]]
    ensures Chain(names, lists, n) == Chain(more, others, n)
  {
    if n > 0 {
      ChainPrefix(names, lists, more, others, n - 1);
    }
  }

  /** A block of one new category stays where it is when the packages are regrouped. */
  lemma RegroupBlock(a: seq<Package>, block: seq<Package>, category: string)
    requires category !in Categories(a).at && forall p :: p in block ==> p.category == category
    ensures Regroup(a + block) == Regroup(a) + block
  {
    if block == [] {
      assert a + block == a;
    } else {
      var (before, after) := (Categories(a), Categories(a + block));
      CategoriesAreValid(a);
      CategoriesAreValid(a + block);
      CategoriesOfBlock(a, block, category);
      ChainPrefix(before.keys, before.at, after.keys, after.at, |before.keys|);
    }
  }

  lemma {:induction false} ChainIsGrouped(names: seq<string>, lists: map<string, seq<Package>>, n: nat)
    requires n <= |names| && Distinct(names) && forall k :: k in names ==> k in lists
    requires forall k: string, p: Package :: k in names && p in lists[k] ==> p.category == k
    ensures Regroup(Chain(names, lists, n)) == Chain(names, lists, n)
  {
    if n > 0 {
      var (front, k) := (Chain(names, lists, n - 1), names[n - 1]);
      ChainIsGrouped(names, lists, n - 1);
      ChainMembers(names, lists, n - 1);
      forall p | p in front
        ensures p.category != k
      {}
      CategoryHolds(front, k);
      FilterFacts(InCategory(k), front);
      RegroupBlock(front, lists[k], k);
    }
  }

  lemma {:induction false} ParsedItems(category: string, items: seq<Node>)
    ensures forall p :: p in ParseItems(category, items) ==> p.category == category && Ok(p)
  {
    if items != [] {
      ParsedItems(category, items[..|items| - 1]);
    }
  }

  lemma ParsedPackages(raw: Option<Node>)
    requires raw.Some? && raw.value.Object? ==> ValidDict(raw.value.fields)
    ensures Regroup(ParsePackages(raw)) == ParsePackages(raw) && forall p :: p in ParsePackages(raw) ==> Ok(p)
  {
    if raw.Some? && raw.value.Object? {
      var d := raw.value.fields;
      var lists := map k | k in d.keys :: ParseEntries(k, Get(d, k));
      forall k | k in d.keys
        ensures forall p: Package :: p in lists[k] ==> p.category == k && Ok(p)
      {
        if d.at[k].Array? {
          ParsedItems(k, d.at[k].items);
        }
      }
      ChainIsGrouped(d.keys, lists, |d.keys|);
      ChainMembers(d.keys, lists, |d.keys|);
    }
  }

  predicate IsNormal(r: Record) { Normalise(r) == r }

  lemma ParsedRecordIsNormal(r: Record)
    requires Regroup(r.packages) == r.packages && (forall p :: p in r.packages ==> Ok(p)) && r.sha256 != Some("")
    ensures IsNormal(r)
  {
    FilterFacts(IsOk(), r.packages);
  }

  /** One load normalises for good. */
  lemma NormalisedIsNormal(r: Record)
    ensures IsNormal(Normalise(r))
  {
    PackagesReadBack(r.packages);
    CategoriesAreValid(r.packages);
    ParsedPackages(PackagesNode(r.packages));
    ParsedRecordIsNormal(Normalise(r));
  }

  predicate AllNormal(records: map<string, Record>) { forall n :: n in records ==> IsNormal(records[n]) }

  lemma ParsedEntryIsNormal(item: Node)
    requires WellFormed(item)
    ensures IsNormal(ParseRecord(item))
  {
    ParsedPackages(Field(item, "additional_packages"));
    ParsedRecordIsNormal(ParseRecord(item));
  }

  lemma {:induction false} LoadListIsNormal(items: seq<Node>)
    requires forall i :: 0 <= i < |items| ==> WellFormed(items[i])
    ensures ValidDict(LoadList(items)) && AllNormal(LoadList(items).at)
  {
    if items != [] {
      LoadListIsNormal(items[..|items| - 1]);
      ParsedEntryIsNormal(items[|items| - 1]);
    }
  }

  lemma {:induction false} LoadLegacyIsNormal(d: Dict<Node>, n: nat)
    requires n <= |d.keys|
    ensures ValidDict(LoadLegacy(d, n)) && AllNormal(LoadLegacy(d, n).at)
  {
    if n > 0 {
      LoadLegacyIsNormal(d, n - 1);
      var r := LegacyRecord(Get(d, d.keys[n - 1]));
      if r.Some? {
        ParsedRecordIsNormal(r.value);
      }
    }
  }

  /** Whatever parsed document a load meets, its records are in normal form. */
  lemma LoadedIsNormal(m: Manifest)
    requires m.Parsed? ==> WellFormed(m.doc)
    ensures ValidDict(Load(m)) && AllNormal(Load(m).at)
  {
    if m.Parsed? && Field(m.doc, "bundles").Some? {
      var bundles := Field(m.doc, "bundles").value;
      assert WellFormed(bundles);
      if bundles.Array? {
        LoadListIsNormal(bundles.items);
      } else if bundles.Object? {
        LoadLegacyIsNormal(bundles.fields, |bundles.fields.keys|);
      }
    }
  }

  // ----- what a save writes is a proper document -----

  lemma SetIsWellFormed(d: Dict<Node>, key: string, v: Node)
    requires WellFormed(Object(d)) && WellFormed(v)
    ensures WellFormed(Object(Set(d, key, v)))
  {}

  lemma EmptyIsWellFormed()
    ensures WellFormed(Object(Empty()))
  {}

  lemma PackageNodeIsWellFormed(p: Package)
    ensures WellFormed(PackageNode(p))
  {
    EmptyIsWellFormed();
    var key := if p.isDirectory then "directory" else "file";
    SetIsWellFormed(Empty(), key, Text(p.key));
    SetIsWellFormed(Set(Empty(), key, Text(p.key)), "sha256", Text(p.sha256));
  }

  lemma CategoriesNodeIsWellFormed(packages: seq<Package>)
    ensures WellFormed(CategoriesNode(Categories(packages)))
  {
    var c := Categories(packages);
    CategoriesAreValid(packages);
    forall k | k in c.at
      ensures WellFormed(PackageNodes(c.at[k]))
    {
      forall i | 0 <= i < |c.at[k]|
        ensures WellFormed(PackageNodes(c.at[k]).items[i])
      {
        PackageNodeIsWellFormed(c.at[k][i]);
      }
    }
  }

  lemma WithTextIsWellFormed(d: Dict<Node>, key: string, v: Option<string>)
    requires WellFormed(Object(d))
    ensures WellFormed(Object(WithText(d, key, v)))
  {
    if v.Some? {
      SetIsWellFormed(d, key, Text(v.value));
    }
  }

  lemma EntryIsWellFormed(name: string, r: Record)
    ensures WellFormed(EntryNode(name, r))
  {
    EmptyIsWellFormed();
    SetIsWellFormed(Empty(), "name", Text(name));
    var d := Set(Empty(), "name", Text(name));
    WithTextIsWellFormed(d, "updated_at", r.updatedAt);
    WithTextIsWellFormed(WithText(d, "updated_at", r.updatedAt), "sha256", r.sha256);
    CategoriesNodeIsWellFormed(r.packages);
    SetIsWellFormed(EntryTexts(name, r), "additional_packages", CategoriesNode(Categories(r.packages)));
  }

  lemma SavedIsWellFormed(installed: Dict<Record>)
    requires ValidDict(installed)
    ensures WellFormed(Save(installed))
  {
    SaveOrderFacts(installed);
    var items := Entries(installed, SaveOrder(installed));
    forall i | 0 <= i < |items|
      ensures WellFormed(items[i])
    {
      EntryIsWellFormed(SaveOrder(installed)[i], installed.at[SaveOrder(installed)[i]]);
    }
    EmptyIsWellFormed();
    SetIsWellFormed(Empty(), "bundles", Array(items));
  }

  // ----- one record per package -----

  predicate SameId(p: Package, q: Package) { p.category == q.category && p.key == q.key }

  /** No two packages of one category and key. */
  ghost predicate OneEach(packages: seq<Package>) {
    forall i, j :: 0 <= i < j < |packages| ==> !SameId(packages[i], packages[j])
  }

  lemma OneEachAppend(a: seq<Package>, b: seq<Package>)
    requires OneEach(a) && OneEach(b)
    requires forall p, q :: p in a && q in b ==> !SameId(p, q)
    ensures OneEach(a + b)
  {}

  lemma {:induction false} OneEachFiltered(f: Package -> bool, packages: seq<Package>)
    requires OneEach(packages)
    ensures OneEach(Filter(f, packages))
  {
    if packages != [] {
      OneEachFiltered(f, packages[1..]);
      FilterFacts(f, packages[1..]);
      forall q | q in Filter(f, packages[1..])
        ensures !SameId(packages[0], q)
      {
        var j :| 1 <= j < |packages| && packages[j] == q;
      }
      if f(packages[0]) {
        OneEachAppend([packages[0]], Filter(f, packages[1..]));
      }
    }
  }

  lemma {:induction false} OneEachChained(names: seq<string>, lists: map<string, seq<Package>>, n: nat)
    requires n <= |names| && Distinct(names) && forall k :: k in names ==> k in lists && OneEach(lists[k])
    requires forall k: string, p: Package :: k in names && p in lists[k] ==> p.category == k
    ensures OneEach(Chain(names, lists, n))
  {
    if n > 0 {
      OneEachChained(names, lists, n - 1);
      ChainMembers(names, lists, n - 1);
      OneEachAppend(Chain(names, lists, n - 1), lists[names[n - 1]]);
    }
  }

  /** A save and a load create no second record of a package. */
  lemma NormaliseKeepsOneEach(r: Record)
    requires OneEach(r.packages)
    ensures OneEach(Normalise(r).packages)
  {
    var c := Categories(r.packages);
    CategoriesAreValid(r.packages);
    forall k | k in c.keys
      ensures OneEach(c.at[k]) && forall p :: p in c.at[k] ==> p.category == k
    {
      CategoryHolds(r.packages, k);
      FilterFacts(InCategory(k), r.packages);
      OneEachFiltered(InCategory(k), r.packages);
    }
    OneEachChained(c.keys, c.at, |c.keys|);
    OneEachFiltered(IsOk(), Regroup(r.packages));
  }
}
