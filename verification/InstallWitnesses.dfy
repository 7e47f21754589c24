/** Concrete installs that do not go through, or not as one would expect
    (launcher/operations.py): one device with some packages, and one archive. */
module InstallWitnesses {
  import opened Options
  import opened OrderedDict
  import opened LocalManifest
  import opened Folders
  import opened SafeNames
  import opened StashArea
  import opened DeviceStore
  import opened DeviceInstall

  const BUNDLE := RemoteBundle("b", "u", "1", None, None, [])

  /** No storage is configured, so an install keeps none. */
  const PLAIN: Env := Env({}, (value: string) => None, (board: string) => [])

  function OneDevice(before: Folder, packages: seq<Package>): State {
    State(map["d" := before], Dict(["d"], map["d" := Record(None, None, packages)]), NoFile, [BUNDLE],
          map[("u", "b") := BUNDLE])
  }

  function Update(archive: Folder): Op { Install("u", "b", Some("d"), [], Some(archive)) }

  function JobFor(before: Folder, packages: seq<Package>, archive: Folder): Job {
    JobOf(PLAIN, OneDevice(before, packages), "d", BUNDLE, Root(archive))
  }

  lemma DIsSafe()
    ensures SafeName("d")
  {
    assert UpToDot("d") == "d" && DropSpaces("d") == "d" && |Upper("d")| == 1;
    assert |"CON"| == 3 && |"PRN"| == 3 && |"AUX"| == 3 && |"NUL"| == 3;
  }

  /** The plan of such an update. */
  lemma UpdatePlan(before: Folder, packages: seq<Package>, archive: Folder)
    ensures
      var (s, job) := (OneDevice(before, packages), JobFor(before, packages, archive));
      Reaches(PLAIN, s, Update(archive), job) && job.kept == {} && (Rejected(job) <==> CannotBeRead(before))
  {
    DIsSafe();
  }

  lemma UpdateRaises(before: Folder, packages: seq<Package>, archive: Folder)
    requires var job := JobFor(before, packages, archive); Addressed(job.parcels) && Raises(job)
    requires !CannotBeRead(before) && !Astray(JobFor(before, packages, archive).stashed)
    ensures PlanOf(PLAIN, OneDevice(before, packages), Update(archive)) == Crash("d")
  {
    UpdatePlan(before, packages, archive);
    InstallPlan(PLAIN, OneDevice(before, packages), Update(archive), JobFor(before, packages, archive));
    JobPlan(PLAIN, OneDevice(before, packages), Update(archive), JobFor(before, packages, archive));
  }

  // ----- files that cannot be decoded -----

  const BINARY: Entry := Blob([0xFF])

  lemma BinaryIsNotText()
    ensures IsBinary(Some(BINARY))
  {}

  /** An update of a device whose own user file is not UTF-8 is refused. */
  lemma BinaryUserFileRefused(archive: Folder)
    ensures PlanOf(PLAIN, OneDevice(map[USER := BINARY], []), Update(archive)) == Refuse
  {
    BinaryIsNotText();
    UpdatePlan(map[USER := BINARY], [], archive);
    InstallPlan(PLAIN, OneDevice(map[USER := BINARY], []), Update(archive), JobFor(map[USER := BINARY], [], archive));
  }

  lemma RootOfFile(name: string, e: Entry)
    requires !e.Tree?
    ensures Root(map[name := e]) == map[name := e]
  {}

  lemma NoPackages(before: Folder, archive: Folder)
    ensures JobFor(before, [], archive).stashed == [] && JobFor(before, [], archive).parcels == []
  {}

  /** Such a file in the archive raises when the device has been replaced already. */
  lemma BinaryUserFileRaises()
    ensures PlanOf(PLAIN, OneDevice(map[], []), Update(map[USER := BINARY])) == Crash("d")
  {
    var (archive, job) := (map[USER := BINARY], JobFor(map[], [], map[USER := BINARY]));
    BinaryIsNotText();
    RootOfFile(USER, BINARY);
    NoPackages(map[], archive);
    UpdatePlan(map[], [], archive);
    assert IsBinary(Standing(job, USER));
    UpdateRaises(map[], [], archive);
  }

  lemma RootOfTwo(a: string, x: Entry, b: string, y: Entry)
    requires a != b
    ensures Root(map[a := x, b := y]) == map[a := x, b := y]
  {
    var folder: Folder := map[a := x, b := y];
    assert folder.Keys == {a, b} && |{a, b}| == 2;
    assert |folder| == |folder.Keys|;
  }

  /** So does a directory of that name. */
  lemma UserDirectoryRaises(e: Entry)
    ensures PlanOf(PLAIN, OneDevice(map[], []), Update(map[USER := Tree(map[]), "rom" := e])) == Crash("d")
  {
    var archive: Folder := map[USER := Tree(map[]), "rom" := e];
    var job := JobFor(map[], [], archive);
    assert |USER| == 14 && |"rom"| == 3;
    RootOfTwo(USER, Tree(map[]), "rom", e);
    NoPackages(map[], archive);
    UpdatePlan(map[], [], archive);
    assert WritesTo(job.rb, USER) && IsTree(Standing(job, USER));
    UpdateRaises(map[], [], archive);
  }

  // ----- stash paths -----

  lemma {:induction false} PartsOfPath(a: string, b: string)
    requires forall c :: c in a ==> !Separator(c)
    ensures Parts(a + "/" + b) == [a] + Parts(b)
  {
    if a == "" {
      assert a + "/" + b == ['/'] + b;
      assert (['/'] + b)[1..] == b;
    } else {
      PartsOfPath(a[1..], b);
      assert (a + "/" + b)[1..] == a[1..] + "/" + b;
      assert [a[0]] + a[1..] == a;
      assert ([a[1..]] + Parts(b))[1..] == Parts(b);
    }
  }

  lemma JobIs(before: Folder, packages: seq<Package>, archive: Folder)
    ensures
      var job := JobFor(before, packages, archive);
      && job.before == before && job.stashed == Preserved(before, packages)
      && AllThere(before, job.stashed) && job.parcels == Parcels(before, job.stashed)
  {}

  lemma OnePackage(p: Package, e: Entry, archive: Folder)
    ensures
      var job := JobFor(map[p.key := e], [p], archive);
      job.stashed == [p] && job.parcels == [Parcel(PathOf(p), p.key, e)]
  {
    assert [p][..0] == [];
    assert Preserved(map[p.key := e], []) == [];
  }

  lemma PreservedTwo(before: Folder, p: Package, q: Package)
    requires p.key != q.key && p.key in before && q.key in before
    ensures Preserved(before, [p, q]) == [p, q]
  {
    assert [p, q][..1] == [p] && [p][..0] == [];
    assert Preserved(before, []) == [] && Preserved(before, [p]) == [p];
    assert !HasKey([p], q.key);
  }

  lemma TwoPackages(p: Package, x: Entry, q: Package, y: Entry, archive: Folder)
    requires p.key != q.key
    ensures
      var job := JobFor(map[p.key := x, q.key := y], [p, q], archive);
      job.stashed == [p, q] && job.parcels == [Parcel(PathOf(p), p.key, x), Parcel(PathOf(q), q.key, y)]
  {
    var before: Folder := map[p.key := x, q.key := y];
    PreservedTwo(before, p, q);
    JobIs(before, [p, q], archive);
    ParcelsOfTwo(before, p, q);
  }

  lemma ParcelsOfTwo(before: Folder, p: Package, q: Package)
    requires p.key in before && q.key in before
    ensures
      AllThere(before, [p, q]) &&
      Parcels(before, [p, q]) == [Parcel(PathOf(p), p.key, before[p.key]), Parcel(PathOf(q), q.key, before[q.key])]
  {}

  /** A name of some length without dots or special characters. */
  predicate Tame(name: string) {
    |name| >= 5 && forall c :: c in name ==> IsLetterOrDigit(c) || c == '_'
  }

  lemma LongIsNotReserved(s: string)
    requires |s| >= 5
    ensures !Reserved(s)
  {
    assert |"CON"| == 3 && |"PRN"| == 3 && |"AUX"| == 3 && |"NUL"| == 3;
  }

  lemma TameIsOrdinary(name: string)
    requires Tame(name)
    ensures !OddPart(name) && Legal([name]) && Parts(name) == [name]
  {
    var last := name[|name| - 1];
    assert last in name;
    StemOf(name, "");
    assert name + "" == name;
    LongIsNotReserved(Upper(DropSpaces(name)));
    OnePart(name);
  }

  /** The path of a package whose category is a directory and a name. */
  lemma PathInSubfolder(p: Package, a: string, c: string)
    requires p.category == a + "/" + c && Tame(a) && Tame(c + "__" + p.key)
    ensures PathOf(p) == [a, c + "__" + p.key] && Legal(PathOf(p)) && !Astray([p])
  {
    var b := c + "__" + p.key;
    assert StashName(p) == a + "/" + b;
    forall x | x in a
      ensures !Separator(x)
    {}
    PartsOfPath(a, b);
    TameIsOrdinary(a);
    TameIsOrdinary(b);
    assert [a] + [b] == [a, b];
  }

  /** A recorded package of a category a/c comes back if it is a directory, and raises if
      it is a file: nothing makes the directory it would be stashed in. */
  lemma FileInSubfolderRaises(p: Package, a: string, c: string, e: Entry, archive: Folder)
    requires p.category == a + "/" + c && Tame(a) && Tame(c + "__" + p.key) && p.key != CERF && p.key != USER
    ensures
      var job := JobFor(map[p.key := e], [p], archive);
      && Addressed(job.parcels) && (PackagesIntact(job) <==> e.Tree?)
      && (!e.Tree? ==> PlanOf(PLAIN, OneDevice(map[p.key := e], [p]), Update(archive)) == Crash("d"))
  {
    var (before, job) := (map[p.key := e], JobFor(map[p.key := e], [p], archive));
    OnePackage(p, e, archive);
    PathInSubfolder(p, a, c);
    UpdatePlan(before, [p], archive);
    OneParcelSeparate(job.parcels[0]);
    IntactExactly(PLAIN, OneDevice(before, [p]), Update(archive), job);
    if !e.Tree? {
      UpdateRaises(before, [p], archive);
    }
  }

  lemma OneParcelSeparate(p: Parcel)
    requires p.path != []
    ensures Addressed([p]) && (Separate([p]) <==> Legal(p.path) && (|p.path| == 1 || p.entry.Tree?))
    ensures Stashable([p]) <==> Separate([p])
  {
    var ps := [p];
    assert ps[..0] == [] && ps[0] == p;
    assert !Touches([], p.path) && forall q :: !Leads([], q);
  }

  /** Two packages of one stash path: an update of a device that has both raises after it
      has begun to replace it. */
  lemma SharedStashPathRaises(p: Package, q: Package, x: Entry, y: Entry, archive: Folder)
    requires p.key != q.key && StashName(p) == StashName(q) && Tame(StashName(p))
    requires {p.key, q.key} !! {CERF, USER}
    ensures PlanOf(PLAIN, OneDevice(map[p.key := x, q.key := y], [p, q]), Update(archive)) == Crash("d")
  {
    TwoPackages(p, x, q, y, archive);
    OrdinaryPair(p, q);
    SharedPath(PathOf(p), p.key, x, q.key, y);
    RaisesUnlessStashable(JobFor(map[p.key := x, q.key := y], [p, q], archive).parcels);
    UpdateRaises(map[p.key := x, q.key := y], [p, q], archive);
  }

  lemma OrdinaryPair(p: Package, q: Package)
    requires StashName(p) == StashName(q) && Tame(StashName(p))
    ensures !Astray([p, q]) && PathOf(q) == PathOf(p)
  {
    TameIsOrdinary(StashName(p));
  }

  lemma SharedPath(path: seq<string>, k: string, x: Entry, l: string, y: Entry)
    requires path != []
    ensures var ps := [Parcel(path, k, x), Parcel(path, l, y)]; Addressed(ps) && Back(ps) == None
  {
    ThroughEarlierRaises([Parcel(path, k, x), Parcel(path, l, y)], 1, 0);
  }

  /** There are such packages. */
  lemma StashNamesCanBeShared(sha256: string)
    ensures
      var (p, q) := (Package("a", "b__c", false, sha256), Package("a__b", "c", false, sha256));
      p.key != q.key && StashName(p) == StashName(q) && Tame(StashName(p))
  {
    assert |"b__c"| == 4 && |"c"| == 1;
    assert "a" + "__" + "b__c" == "a__b__c" == "a__b" + "__" + "c";
  }

  /** A file whose stash path leads to an earlier directory's comes back wrapped in a
      directory of its own name, and the install completes as if nothing had happened. */
  lemma WrappedPackage(p: Package, q: Package, b: string, x: Entry, y: Entry, archive: Folder)
    requires p.category == StashName(q) + "/" + b && Tame(StashName(q)) && Tame(b + "__" + p.key)
    requires p.key != q.key && x.Tree? && !y.Tree? && q.key != b + "__" + p.key
    ensures
      var job := JobFor(map[p.key := x, q.key := y], [p, q], archive);
      Addressed(job.parcels) && BackOf(job) == Some(map[p.key := x, q.key := Tree(map[q.key := y])])
  {
    var (a, c, job) := (StashName(q), b + "__" + p.key, JobFor(map[p.key := x, q.key := y], [p, q], archive));
    TwoPackages(p, x, q, y, archive);
    PathInSubfolder(p, a, b);
    TameIsOrdinary(a);
    var ps := job.parcels;
    assert ps == [Parcel([a, c], p.key, x), Parcel([a], q.key, y)];
    WrappedParcel(a, c, p.key, q.key, x, y);
  }

  lemma WrappedParcel(a: string, c: string, k: string, l: string, x: Entry, y: Entry)
    requires x.Tree? && !y.Tree? && k != l && l != c && Legal([a]) && Legal([a, c])
    ensures
      var ps := [Parcel([a, c], k, x), Parcel([a], l, y)];
      Addressed(ps) && Back(ps) == Some(map[k := x, l := Tree(map[l := y])])
  {
    var ps := [Parcel([a, c], k, x), Parcel([a], l, y)];
    assert ps[..1] == [Parcel([a, c], k, x)] && ps[..1][..0] == [];
    var one := Tree(map[a := Tree(map[c := x])]);
    assert [a, c][1..] == [c] && [c][1..] == [] && [a][1..] == [] && [a] + [l] == [a, l] && [a, l][1..] == [l] && [l][1..] == [];
    assert Insert(Tree(map[]), [c], x) == Tree(map[c := x]);
    assert Insert(Tree(map[]), [a, c], x) == one;
    assert MoveIn(Tree(map[]), [a, c], k, x) == Some(one);
    var both := Tree(map[a := Tree(map[c := x, l := y])]);
    assert Look(one, [a]) == Some(Tree(map[c := x]));
    assert Look(one, [a, l]) == None;
    assert Insert(Tree(map[c := x]), [l], y) == Tree(map[c := x, l := y]);
    assert Insert(one, [a, l], y) == both;
    assert MoveIn(one, [a], l, y) == Some(both);
    assert Stash(ps[..1][..0]) == Some(Tree(map[])) && Stash(ps[..1]) == Some(one);
    assert Stash(ps) == Some(both);
    assert both.children[a] == Tree(map[c := x, l := y]) && Look(both.children[a], [c]) == Some(x);
    assert Look(both, [a, c]) == Some(x);
    var left := Tree(map[a := Tree(map[l := y])]);
    assert Remove(Tree(map[c := x, l := y]), [c]) == Tree(map[l := y]);
    assert Remove(both, [a, c]) == left;
    assert TakeBack(both, ps[..1]) == Some(Taken(left, map[k := x]));
    assert Look(left, [a]) == Some(Tree(map[l := y]));
  }

  /** A file recorded under a category with a separator. */
  lemma SymbolFileRaises(bytes: seq<bv8>, archive: Folder)
    ensures
      var p := Package("tools/pdb", "symbols", false, "1");
      PlanOf(PLAIN, OneDevice(map["symbols" := Blob(bytes)], [p]), Update(archive)) == Crash("d")
  {
    var p := Package("tools/pdb", "symbols", false, "1");
    assert "tools/pdb" == "tools" + "/" + "pdb" && "pdb" + "__" + "symbols" == "pdb__symbols";
    assert |"symbols"| == 7 && |CERF| == 9 && |USER| == 14;
    FileInSubfolderRaises(p, "tools", "pdb", Blob(bytes), archive);
  }

  /** A file whose stash path leads to that of a directory recorded before it. */
  lemma CardFileIsWrapped(bytes: seq<bv8>, archive: Folder)
    ensures
      var (p, q) := (Package("sd__card/sub", "image", true, "1"), Package("sd", "card", false, "1"));
      var job := JobFor(map["image" := Tree(map[]), "card" := Blob(bytes)], [p, q], archive);
      && Addressed(job.parcels)
      && BackOf(job) == Some(map["image" := Tree(map[]), "card" := Tree(map["card" := Blob(bytes)])])
  {
    var (p, q) := (Package("sd__card/sub", "image", true, "1"), Package("sd", "card", false, "1"));
    assert "sd" + "__" + "card" == "sd__card" && "sub" + "__" + "image" == "sub__image";
    assert p.category == StashName(q) + "/" + "sub";
    assert |"card"| == 4 && |"image"| == 5 && |"sub__image"| == 10;
    WrappedPackage(p, q, "sub", Tree(map[]), Blob(bytes), archive);
  }
}
