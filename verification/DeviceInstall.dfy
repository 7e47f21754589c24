/** What an install over a device leaves in its directory and in its record
    (launcher/operations.py). */
module DeviceInstall {
  import opened Options
  import opened OrderedDict
  import opened LocalManifest
  import opened DeviceStore
  import opened DeviceInputs
  import opened ManifestNormalForm
  import opened StableSort
  import opened SafeNames
  import opened Folders
  import opened StashArea
  import Json
  import CerfUserJson

  lemma FileNamesDiffer()
    ensures CERF != USER && CERF != Temporary(CERF) && USER != Temporary(USER)
    ensures CERF != Temporary(USER) && USER != Temporary(CERF) && Temporary(CERF) != Temporary(USER)
  {
    assert |CERF| == 9 && |USER| == 14 && |".tmp"| == 4;
  }

  // ----- the recorded packages -----

  function IsThere(before: Folder): Package -> bool { (p: Package) => p.key in before }

  /** When no two records share an artifact, every record whose artifact is there stays,
      in the old order. */
  lemma {:induction false} PreservedInOrder(before: Folder, packages: seq<Package>)
    requires DistinctKeys(packages)
    ensures Preserved(before, packages) == Filter(IsThere(before), packages)
  {
    if packages != [] {
      var (front, p) := (packages[..|packages| - 1], packages[|packages| - 1]);
      PreservedInOrder(before, front);
      PreservedKeys(before, front);
      assert packages == front + [p];
      FilterAppend(IsThere(before), front, [p]);
      assert [p][1..] == [];
    }
  }

  lemma DistinctKeysAreOneEach(packages: seq<Package>)
    requires DistinctKeys(packages)
    ensures OneEach(packages)
  {}

  // ----- stash paths -----

  lemma {:induction false} OnePart(name: string)
    requires forall c :: c in name ==> !Separator(c)
    ensures Parts(name) == [name]
  {
    if name != "" {
      OnePart(name[1..]);
      assert [name[0]] + name[1..] == name;
    }
  }

  predicate HasDoubleUnderscore(s: string) { exists i :: 0 <= i < |s| - 1 && s[i] == '_' && s[i + 1] == '_' }

  /** Letters, digits, blanks, dashes and single underscores, none of these at the end. */
  predicate PlainCategory(s: string) {
    && (forall c :: c in s ==> IsNameChar(c) && c != '.')
    && !HasDoubleUnderscore(s) && (s == "" || s[|s| - 1] != '_')
  }

  predicate PlainPackage(p: Package) { PlainCategory(p.category) && SafeName(p.key) }

  lemma ShorterCategory(p: Package, q: Package)
    requires PlainCategory(q.category) && |p.category| < |q.category|
    ensures StashName(p) != StashName(q)
  {
    var (a, b, n) := (StashName(p), StashName(q), |p.category|);
    assert a[n] == '_' && a[n + 1] == '_';
    assert b[n] == q.category[n];
    assert n + 1 < |q.category| ==> b[n + 1] == q.category[n + 1];
  }

  lemma EqualCategory(p: Package, q: Package)
    requires |p.category| == |q.category| && StashName(p) == StashName(q)
    ensures p.key == q.key
  {
    var n := |p.category| + 2;
    assert StashName(p)[n..] == p.key && StashName(q)[n..] == q.key;
  }

  /** Stash names tell packages of plain categories apart by their keys. */
  lemma StashNamesDiffer(p: Package, q: Package)
    requires PlainCategory(p.category) && PlainCategory(q.category) && p.key != q.key
    ensures StashName(p) != StashName(q)
  {
    if |p.category| < |q.category| {
      ShorterCategory(p, q);
    } else if |q.category| < |p.category| {
      ShorterCategory(q, p);
    } else if StashName(p) == StashName(q) {
      EqualCategory(p, q);
    }
  }

  lemma {:induction false} StemOf(a: string, b: string)
    requires '.' !in a
    ensures UpToDot(a + b) == a + UpToDot(b)
  {
    if a == "" {
      assert a + b == b;
    } else {
      StemOf(a[1..], b);
      assert (a + b)[1..] == a[1..] + b;
    }
  }

  lemma {:induction false} KeepsUpTo(s: string, i: nat)
    requires i < |s| && s[i] != ' '
    ensures i < |DropSpaces(s)| && DropSpaces(s) <= s
    decreases |s|
  {
    if s[|s| - 1] == ' ' {
      KeepsUpTo(s[..|s| - 1], i);
    }
  }

  /** No device name holds an underscore. */
  lemma UnderscoreIsNotReserved(s: string, i: nat)
    requires i < |s| && s[i] == '_'
    ensures !Reserved(s)
  {
    assert '_' in s;
    assert '_' !in "CON" && '_' !in "PRN" && '_' !in "AUX" && '_' !in "NUL" && '_' !in "COM" && '_' !in "LPT";
    assert |s| == 4 && i < 3 ==> '_' == s[..3][i] && '_' in s[..3];
  }

  lemma StemHasUnderscore(p: Package)
    requires PlainPackage(p)
    ensures !Reserved(Upper(DropSpaces(UpToDot(StashName(p)))))
  {
    var n := |p.category|;
    assert StashName(p) == (p.category + "__") + p.key;
    StemOf(p.category + "__", p.key);
    var stem := UpToDot(StashName(p));
    assert stem[n] == '_';
    KeepsUpTo(stem, n);
    UnderscoreIsNotReserved(Upper(DropSpaces(stem)), n);
  }

  lemma NameCharsAreTame(c: char)
    requires IsNameChar(c)
    ensures !Separator(c) && !Forbidden(c) && c != ':'
  {}

  lemma StashNameChars(p: Package)
    requires PlainPackage(p)
    ensures forall c :: c in StashName(p) ==> IsNameChar(c)
    ensures var name := StashName(p); name[|name| - 1] == p.key[|p.key| - 1]
  {
    assert forall c :: c in StashName(p) ==> c in p.category || c == '_' || c in p.key;
  }

  /** The stash path of such a package is its stash name, which is a name of its own. */
  lemma PlainPath(p: Package)
    requires PlainPackage(p)
    ensures PathOf(p) == [StashName(p)] && Legal(PathOf(p)) && !OddPart(StashName(p))
  {
    StashNameChars(p);
    forall c | c in StashName(p)
      ensures !Separator(c) && !Forbidden(c) && c != ':'
    {
      NameCharsAreTame(c);
    }
    OnePart(StashName(p));
    StemHasUnderscore(p);
  }

  lemma OnePartApart(a: string, b: string)
    requires a != b
    ensures Apart([a], [b])
  {
    assert [a][0] != [b][0];
  }

  /** Plain packages are never astray, never in each other's way, and come back as they
      were. */
  lemma PlainPackagesAreSeparate(before: Folder, stashed: seq<Package>)
    requires AllThere(before, stashed) && DistinctKeys(stashed) && forall p :: p in stashed ==> PlainPackage(p)
    ensures !Astray(stashed) && Separate(Parcels(before, stashed))
  {
    var ps := Parcels(before, stashed);
    forall p | p in stashed
      ensures PathOf(p) == [StashName(p)] && Legal(PathOf(p)) && !OddPart(StashName(p))
    {
      PlainPath(p);
    }
    forall i | 0 <= i < |ps|
      ensures !Touches(ps[..i], ps[i].path) && Reachable(ps[..i], ps[i])
    {
      assert stashed[i] in stashed;
      forall j | 0 <= j < i
        ensures Apart(ps[i].path, ps[..i][j].path)
      {
        assert stashed[j] in stashed;
        StashNamesDiffer(stashed[i], stashed[j]);
        OnePartApart(StashName(stashed[i]), StashName(stashed[j]));
      }
    }
  }

  // ----- the directory -----

  lemma PutJsonAt(folder: Folder, name: string, obj: Json.Object, e: string)
    requires name != Temporary(name)
    ensures
      var f := PutJson(folder, name, obj);
      f.Some? ==>
        At(f.value, e)
        == if e == name then Some(JsonFile(Json.Obj(obj))) else if e == Temporary(name) then None else At(folder, e)
  {}

  lemma PutJsonBlocked(folder: Folder, name: string, obj: Json.Object)
    ensures PutJson(folder, name, obj).None? <==> IsTree(At(folder, name)) || IsTree(At(folder, Temporary(name)))
  {}

  /** The entry that stands in a place before the configuration files are written: a
      package that came back, else the archive's entry, else a kept one. */
  function Placed(before: Folder, kept: set<string>, back: Folder, prepared: Folder, e: string): Option<Entry> {
    if e in back then Some(back[e])
    else if e in prepared then Some(prepared[e])
    else if e in kept then At(before, e)
    else None
  }

  /** The user's file was stashed by itself. */
  predicate UserFileStashed(before: Folder, back: Folder) { IsFile(before, USER) && USER !in back }

  /** The entry after the user's file is back. */
  function Restored(before: Folder, kept: set<string>, back: Folder, prepared: Folder, e: string): Option<Entry> {
    if e == USER && UserFileStashed(before, back) then Some(before[USER]) else Placed(before, kept, back, prepared, e)
  }

  /** A package comes back for each that was stashed. */
  ghost predicate BackFor(stashed: seq<Package>, back: Folder) { forall e :: e in back <==> HasKey(stashed, e) }

  lemma RebuiltAt(before: Folder, kept: set<string>, stashed: seq<Package>, back: Folder, prepared: Folder, e: string)
    requires BackFor(stashed, back)
    ensures
      At(Rebuilt(before, kept, stashed, back, prepared), e)
      == if e == USER && UserFileStashed(before, back) then At(prepared, USER)
         else Placed(before, kept, back, prepared, e)
  {}

  lemma UserFileBackAt(before: Folder, kept: set<string>, stashed: seq<Package>, back: Folder, prepared: Folder, e: string)
    requires BackFor(stashed, back)
    ensures
      var f := UserFileBack(before, stashed, Rebuilt(before, kept, stashed, back, prepared));
      && (f.None? <==> UserFileStashed(before, back) && IsTree(At(prepared, USER)))
      && (f.Some? ==> At(f.value, e) == Restored(before, kept, back, prepared, e))
  {
    RebuiltAt(before, kept, stashed, back, prepared, e);
    RebuiltAt(before, kept, stashed, back, prepared, USER);
  }

  /** The entry of a configured directory. */
  function ConfiguredEntry(folder: Folder, rb: RemoteBundle, e: string): Option<Entry> {
    if e == USER then
      Some(JsonFile(Json.Obj(CerfUserJson.Apply(ObjectAt(folder, USER), CerfUserJson.LauncherPatch(rb.repoUrl, rb.name)))))
    else if e == Temporary(USER) then None
    else if e == CERF && rb.cerfJson.Some? then Some(JsonFile(Json.Obj(rb.cerfJson.value)))
    else if e == Temporary(CERF) && rb.cerfJson.Some? then None
    else At(folder, e)
  }

  lemma ConfiguredAt(folder: Folder, rb: RemoteBundle, e: string)
    ensures var f := Configured(folder, rb); f.Some? ==> At(f.value, e) == ConfiguredEntry(folder, rb, e)
  {
    FileNamesDiffer();
    var link := CerfUserJson.LauncherPatch(rb.repoUrl, rb.name);
    var f := if rb.cerfJson.Some? then PutJson(folder, CERF, rb.cerfJson.value) else Some(folder);
    if f.Some? {
      if rb.cerfJson.Some? {
        PutJsonAt(folder, CERF, rb.cerfJson.value, e);
        PutJsonAt(folder, CERF, rb.cerfJson.value, USER);
      }
      SameFile(folder, f.value, USER);
      PutJsonAt(f.value, USER, CerfUserJson.Apply(ObjectAt(f.value, USER), link), e);
    }
  }

  lemma SameFile(a: Folder, b: Folder, name: string)
    requires At(a, name) == At(b, name)
    ensures FileAt(a, name) == FileAt(b, name)
  {}

  /** The names an install writes configuration files under, temporary ones included. */
  predicate WritesTo(rb: RemoteBundle, e: string) {
    e == USER || e == Temporary(USER) || (rb.cerfJson.Some? && (e == CERF || e == Temporary(CERF)))
  }

  /** An entry whose reading raises. */
  predicate IsBinary(e: Option<Entry>) { e.Some? && e.value.Blob? && !ValidUtf8(e.value.bytes) }

  lemma BinaryRaises(folder: Folder, name: string)
    ensures ReadRaises(folder, name) <==> IsBinary(At(folder, name))
  {}

  /** Writing the files fails exactly where a directory is in the way, or a user file
      that cannot be decoded. */
  lemma ConfiguredBlocked(folder: Folder, rb: RemoteBundle)
    ensures
      Configured(folder, rb).None?
      <==> IsBinary(At(folder, USER)) || exists e :: WritesTo(rb, e) && IsTree(At(folder, e))
  {
    FileNamesDiffer();
    var link := CerfUserJson.LauncherPatch(rb.repoUrl, rb.name);
    if rb.cerfJson.Some? {
      PutJsonBlocked(folder, CERF, rb.cerfJson.value);
      PutJsonAt(folder, CERF, rb.cerfJson.value, USER);
      PutJsonAt(folder, CERF, rb.cerfJson.value, Temporary(USER));
    }
    var f := if rb.cerfJson.Some? then PutJson(folder, CERF, rb.cerfJson.value) else Some(folder);
    if f.Some? {
      PutJsonBlocked(f.value, USER, CerfUserJson.Apply(ObjectAt(f.value, USER), link));
    }
    assert WritesTo(rb, USER) && WritesTo(rb, Temporary(USER));
    assert rb.cerfJson.Some? ==> WritesTo(rb, CERF) && WritesTo(rb, Temporary(CERF));
  }

  /** The entry an installed directory has in each place. */
  function Expected(before: Folder, kept: set<string>, back: Folder, prepared: Folder, rb: RemoteBundle, e: string)
    : Option<Entry>
  {
    if e == USER then
      var user := UserObject(Restored(before, kept, back, prepared, USER));
      Some(JsonFile(Json.Obj(CerfUserJson.Apply(user, CerfUserJson.LauncherPatch(rb.repoUrl, rb.name)))))
    else if e == Temporary(USER) then None
    else if e == CERF && rb.cerfJson.Some? then Some(JsonFile(Json.Obj(rb.cerfJson.value)))
    else if e == Temporary(CERF) && rb.cerfJson.Some? then None
    else Placed(before, kept, back, prepared, e)
  }

  /** The object in an entry read as a user file. */
  function UserObject(e: Option<Entry>): Json.Object {
    if e.Some? then ObjectAt(map[USER := e.value], USER) else map[]
  }

  lemma UserObjectAt(folder: Folder)
    ensures UserObject(At(folder, USER)) == ObjectAt(folder, USER)
  {}

  /** A directory stands where a configuration file goes, or the user file to be edited
      cannot be decoded. */
  ghost predicate Blocked(before: Folder, kept: set<string>, back: Folder, prepared: Folder, rb: RemoteBundle) {
    || IsBinary(Restored(before, kept, back, prepared, USER))
    || exists e :: WritesTo(rb, e) && IsTree(Placed(before, kept, back, prepared, e))
  }

  /** The install gets through exactly when nothing of that kind is in the way. */
  lemma InstalledFolderBlocked(before: Folder, kept: set<string>, stashed: seq<Package>, back: Folder, prepared: Folder,
                               rb: RemoteBundle)
    requires BackFor(stashed, back)
    requires forall e :: e in kept ==> e !in prepared
    ensures
      InstalledFolder(before, kept, stashed, back, prepared, rb).None? <==> Blocked(before, kept, back, prepared, rb)
  {
    var f := UserFileBack(before, stashed, Rebuilt(before, kept, stashed, back, prepared));
    UserFileBackAt(before, kept, stashed, back, prepared, USER);
    assert WritesTo(rb, USER);
    if f.None? {
      assert IsTree(Placed(before, kept, back, prepared, USER));
    } else {
      ConfiguredBlocked(f.value, rb);
      forall e
        ensures IsTree(At(f.value, e)) <==> IsTree(Placed(before, kept, back, prepared, e))
      {
        UserFileBackAt(before, kept, stashed, back, prepared, e);
      }
    }
  }

  lemma InstalledAt(before: Folder, kept: set<string>, stashed: seq<Package>, back: Folder, prepared: Folder,
                    rb: RemoteBundle, e: string)
    requires BackFor(stashed, back)
    ensures
      var f := InstalledFolder(before, kept, stashed, back, prepared, rb);
      f.Some? ==> At(f.value, e) == Expected(before, kept, back, prepared, rb, e)
  {
    var f := UserFileBack(before, stashed, Rebuilt(before, kept, stashed, back, prepared));
    UserFileBackAt(before, kept, stashed, back, prepared, e);
    UserFileBackAt(before, kept, stashed, back, prepared, USER);
    if f.Some? {
      ConfiguredAt(f.value, rb, e);
      UserObjectAt(f.value);
    }
  }

  // ----- an install as a whole -----

  /** An install that gets as far as an extracted archive: what it works on. */
  datatype Job = Job(name: string, rb: RemoteBundle, before: Folder, kept: set<string>, stashed: seq<Package>,
                     parcels: seq<Parcel>, prepared: Folder)

  function JobOf(env: Env, s: State, name: string, rb: RemoteBundle, prepared: Folder): Job {
    var before := FolderOf(s, name);
    var stashed := Preserved(before, RecordOf(s, name).packages);
    PreservedKeys(before, RecordOf(s, name).packages);
    Job(name, rb, before, Kept(env, before), stashed, Parcels(before, stashed), prepared)
  }

  /** The operation is an install of a known bundle into an allowed directory, and its
      download was verified. */
  ghost predicate Reaches(env: Env, s: State, op: Op, job: Job) {
    && op.Install? && (op.url, op.remoteName) in s.index && op.archive.Some?
    && var rb := s.index[(op.url, op.remoteName)];
    && NameFor(s, rb.name, op.dirName, op.draws) == Some(job.name) && !Refused(env, job.name)
    && job == JobOf(env, s, job.name, rb, Root(op.archive.value))
  }

  /** The device's own files cannot be decoded, or the archive has an entry that holds
      the device's storage. */
  ghost predicate Rejected(job: Job) { CannotBeRead(job.before) || exists e :: e in job.kept && e in job.prepared }

  function BackOf(job: Job): Option<Folder>
    requires Addressed(job.parcels)
  {
    Back(job.parcels)
  }

  /** The package's stash path leads on to an earlier one's. */
  ghost predicate Wrapped(job: Job, e: string) {
    exists i :: 0 <= i < |job.parcels| && job.parcels[i].key == e && LeadsBefore(job.parcels[..i], job.parcels[i].path)
  }

  /** The entry that will stand in a place when the configuration files are written; for
      a package that comes back in a directory, just a directory. */
  ghost function Standing(job: Job, e: string): Option<Entry> {
    if HasKey(job.stashed, e) then if Wrapped(job, e) then Some(Tree(map[])) else At(job.before, e)
    else if e in job.prepared then Some(job.prepared[e])
    else if e in job.kept then At(job.before, e)
    else None
  }

  /** The packages cannot all be stashed and taken back, or the user file to be edited is
      not the device's own and cannot be decoded, or a directory will stand where a
      configuration file goes. */
  ghost predicate Raises(job: Job)
    requires Addressed(job.parcels)
  {
    || !Stashable(job.parcels)
    || (!IsFile(job.before, USER) && IsBinary(Standing(job, USER)))
    || exists e :: WritesTo(job.rb, e) && IsTree(Standing(job, e))
  }

  /** A package as it was, or in a directory that holds it under its name. */
  ghost predicate KeptAs(job: Job, e: string, x: Option<Entry>) {
    if Wrapped(job, e) then IsTree(x) && At(x.value.children, e) == At(job.before, e) else x == At(job.before, e)
  }

  /** The moves raise, or the directory they lead to cannot be configured. */
  ghost predicate Stops(job: Job)
    requires Addressed(job.parcels)
  {
    BackOf(job).None? || Blocked(job.before, job.kept, BackOf(job).value, job.prepared, job.rb)
  }

  function ExpectedIn(job: Job, back: Folder, e: string): Option<Entry> {
    Expected(job.before, job.kept, back, job.prepared, job.rb, e)
  }

  lemma ParcelKeys(before: Folder, stashed: seq<Package>, key: string)
    requires AllThere(before, stashed)
    ensures HasParcel(Parcels(before, stashed), key) <==> HasKey(stashed, key)
  {
    var ps := Parcels(before, stashed);
    if HasParcel(ps, key) {
      var p :| p in ps && p.key == key;
      var i :| 0 <= i < |ps| && ps[i] == p;
      assert stashed[i] in stashed;
    }
    if HasKey(stashed, key) {
      var p :| p in stashed && p.key == key;
      var i :| 0 <= i < |stashed| && stashed[i] == p;
      assert ps[i] in ps;
    }
  }

  lemma BackIsFor(before: Folder, stashed: seq<Package>)
    requires AllThere(before, stashed)
    ensures var back := Back(Parcels(before, stashed)); back.Some? ==> BackFor(stashed, back.value)
  {
    var ps := Parcels(before, stashed);
    if Back(ps).Some? {
      forall e
        ensures e in Back(ps).value <==> HasKey(stashed, e)
      {
        BackKeys(ps, e);
        ParcelKeys(before, stashed, e);
      }
    }
  }

  lemma JobFacts(env: Env, s: State, op: Op, job: Job)
    requires Reaches(env, s, op, job)
    ensures Addressed(job.parcels) && DistinctParcels(job.parcels) && DistinctKeys(job.stashed)
    ensures forall key :: HasKey(job.stashed, key) <==> key in job.before && HasKey(RecordOf(s, job.name).packages, key)
    ensures AllThere(job.before, job.stashed) && job.parcels == Parcels(job.before, job.stashed)
    ensures BackOf(job).Some? ==> BackFor(job.stashed, BackOf(job).value)
  {
    PreservedKeys(job.before, RecordOf(s, job.name).packages);
    BackIsFor(job.before, job.stashed);
  }

  lemma PlaceOf(before: Folder, stashed: seq<Package>, e: string) returns (i: nat)
    requires AllThere(before, stashed) && HasKey(stashed, e)
    ensures i < |stashed| && Parcels(before, stashed)[i].key == e && e in before
    ensures Parcels(before, stashed)[i].entry == before[e]
  {
    var p :| p in stashed && p.key == e;
    i :| 0 <= i < |stashed| && stashed[i] == p;
  }

  lemma CameBackIsKept(job: Job, i: nat, x: Option<Entry>)
    requires DistinctParcels(job.parcels) && i < |job.parcels| && CameBack(job.parcels, i, x)
    requires At(job.before, job.parcels[i].key) == Some(job.parcels[i].entry)
    ensures KeptAs(job, job.parcels[i].key, x)
  {}

  /** What a recorded package comes back as. */
  lemma PackageComesBack(env: Env, s: State, op: Op, job: Job, e: string)
    requires Reaches(env, s, op, job) && HasKey(job.stashed, e)
    ensures Addressed(job.parcels)
    ensures Stashable(job.parcels) ==> BackOf(job).Some? && KeptAs(job, e, At(BackOf(job).value, e))
  {
    JobFacts(env, s, op, job);
    var i := PlaceOf(job.before, job.stashed, e);
    if Stashable(job.parcels) {
      StashableComeBack(job.parcels, i);
      CameBackIsKept(job, i, At(BackOf(job).value, e));
    }
  }

  lemma StandsThere(env: Env, s: State, op: Op, job: Job, e: string)
    requires Reaches(env, s, op, job)
    ensures Addressed(job.parcels)
    ensures
      Stashable(job.parcels) ==>
        BackOf(job).Some? &&
        var x := Placed(job.before, job.kept, BackOf(job).value, job.prepared, e);
        (IsTree(x) <==> IsTree(Standing(job, e))) && (IsBinary(x) <==> IsBinary(Standing(job, e)))
  {
    JobFacts(env, s, op, job);
    RaisesUnlessStashable(job.parcels);
    if HasKey(job.stashed, e) {
      PackageComesBack(env, s, op, job, e);
    }
  }

  /** The condition on the inputs is the one met half way. */
  lemma StopsExactly(env: Env, s: State, op: Op, job: Job)
    requires Reaches(env, s, op, job) && !Rejected(job)
    ensures Addressed(job.parcels) && (Stops(job) <==> Raises(job))
  {
    JobFacts(env, s, op, job);
    RaisesUnlessStashable(job.parcels);
    if Stashable(job.parcels) {
      forall e
        ensures
          IsTree(Placed(job.before, job.kept, BackOf(job).value, job.prepared, e)) <==> IsTree(Standing(job, e))
      {
        StandsThere(env, s, op, job, e);
      }
      StandsThere(env, s, op, job, USER);
      BinaryRaises(job.before, USER);
    }
  }

  lemma JobPlan(env: Env, s: State, op: Op, job: Job)
    requires Reaches(env, s, op, job)
    ensures PlanOf(env, s, op) == PlanReplace(env, s, job.name, job.rb, job.prepared)
    ensures Addressed(job.parcels)
    ensures
      PlanReplace(env, s, job.name, job.rb, job.prepared)
      == if Rejected(job) then Refuse
         else if Astray(job.stashed) then Stray
         else if BackOf(job).None? then Crash(job.name)
         else
           var f := InstalledFolder(job.before, job.kept, job.stashed, BackOf(job).value, job.prepared, job.rb);
           if f.None? then Crash(job.name)
           else Finish(job.name, f, Put(Record(Some(job.rb.updatedAt), job.rb.sha256, job.stashed)))
  {}

  lemma InstallPlan(env: Env, s: State, op: Op, job: Job)
    requires Reaches(env, s, op, job)
    ensures Addressed(job.parcels)
    ensures PlanOf(env, s, op).Refuse? <==> Rejected(job)
    ensures PlanOf(env, s, op).Stray? <==> !Rejected(job) && Astray(job.stashed)
    ensures PlanOf(env, s, op).Crash? <==> !Rejected(job) && !Astray(job.stashed) && Raises(job)
  {
    JobPlan(env, s, op, job);
    JobFacts(env, s, op, job);
    if !Rejected(job) {
      StopsExactly(env, s, op, job);
    }
    if !Rejected(job) && BackOf(job).Some? {
      InstalledFolderBlocked(job.before, job.kept, job.stashed, BackOf(job).value, job.prepared, job.rb);
    }
  }

  /** The whole effect of an install none of whose packages is astray.  Files that cannot
      be decoded and a storage conflict change nothing.  Where it raises half way, the
      record, the manifest and the other devices are unchanged.  Otherwise every entry is
      the expected one, and the record names the remote version and the preserved
      packages. */
  lemma InstallOutcome(env: Env, s: State, op: Op, job: Job, t: State)
    requires Reaches(env, s, op, job) && Step(env, s, op, t)
    ensures Rejected(job) ==> t == s
    ensures
      !Astray(job.stashed) ==> t.dirs - {job.name} == s.dirs - {job.name} && t.remotes == s.remotes && t.index == s.index
    ensures Addressed(job.parcels)
    ensures
      !Rejected(job) && !Astray(job.stashed) && Raises(job) ==> t.installed == s.installed && t.manifest == s.manifest
    ensures
      !Rejected(job) && !Astray(job.stashed) && !Raises(job) ==>
        && job.name in t.dirs && BackOf(job).Some?
        && (forall e :: At(t.dirs[job.name], e) == ExpectedIn(job, BackOf(job).value, e))
        && t.installed == Set(s.installed, job.name, Record(Some(job.rb.updatedAt), job.rb.sha256, job.stashed))
        && ValidDict(t.installed) && t.manifest == Parsed(Save(t.installed))
  {
    InstallPlan(env, s, op, job);
    JobPlan(env, s, op, job);
    if !Rejected(job) && !Astray(job.stashed) && !Raises(job) {
      InstallFinishes(env, s, op, job, t);
    }
  }

  lemma InstallFinishes(env: Env, s: State, op: Op, job: Job, t: State)
    requires Reaches(env, s, op, job) && Step(env, s, op, t) && Addressed(job.parcels)
    requires !Rejected(job) && !Astray(job.stashed) && !Raises(job)
    ensures job.name in t.dirs && BackOf(job).Some?
    ensures forall e :: At(t.dirs[job.name], e) == ExpectedIn(job, BackOf(job).value, e)
    ensures t.dirs - {job.name} == s.dirs - {job.name} && t.remotes == s.remotes && t.index == s.index
    ensures t.installed == Set(s.installed, job.name, Record(Some(job.rb.updatedAt), job.rb.sha256, job.stashed))
    ensures ValidDict(t.installed) && t.manifest == Parsed(Save(t.installed))
  {
    InstallPlan(env, s, op, job);
    JobPlan(env, s, op, job);
    InstalledEntries(env, s, op, job);
  }

  /** The entries of the directory an install ends with. */
  lemma InstalledEntries(env: Env, s: State, op: Op, job: Job)
    requires Reaches(env, s, op, job) && Addressed(job.parcels) && BackOf(job).Some?
    ensures
      var back := BackOf(job).value;
      var f := InstalledFolder(job.before, job.kept, job.stashed, back, job.prepared, job.rb);
      f.Some? ==> forall e :: At(f.value, e) == ExpectedIn(job, back, e)
  {
    JobFacts(env, s, op, job);
    var back := BackOf(job).value;
    var f := InstalledFolder(job.before, job.kept, job.stashed, back, job.prepared, job.rb);
    forall e
      ensures f.Some? ==> At(f.value, e) == ExpectedIn(job, back, e)
    {
      InstalledAt(job.before, job.kept, job.stashed, back, job.prepared, job.rb, e);
    }
  }

  /** An install changes nothing if one of the device's own files cannot be decoded or
      the archive carries an entry that holds the device's storage, and only then. */
  lemma RefusedExactly(env: Env, s: State, op: Op, job: Job, t: State)
    requires Reaches(env, s, op, job) && Step(env, s, op, t)
    ensures
      var before := FolderOf(s, job.name);
      PlanOf(env, s, op).Refuse?
      <==> || IsBinary(At(before, "cerf.json")) || IsBinary(At(before, "cerf-user.json"))
           || exists e :: HoldsStorage(env, before, e) && e in job.prepared
    ensures PlanOf(env, s, op).Refuse? ==> t == s
  {
    InstallPlan(env, s, op, job);
    BinaryRaises(job.before, CERF);
    BinaryRaises(job.before, USER);
    forall e
      ensures e in job.kept <==> HoldsStorage(env, job.before, e)
    {
      KeptExactly(env, job.before, e);
    }
  }

  /** When the stash makes an install raise. */
  lemma StashRaises(env: Env, s: State, op: Op, job: Job)
    requires Reaches(env, s, op, job)
    ensures Addressed(job.parcels) && (BackOf(job).None? <==> !Stashable(job.parcels))
  {
    JobFacts(env, s, op, job);
    RaisesUnlessStashable(job.parcels);
  }

  /** Every package comes back exactly as it was. */
  ghost predicate PackagesIntact(job: Job)
    requires Addressed(job.parcels)
  {
    BackOf(job).Some? && forall e :: HasKey(job.stashed, e) ==> At(BackOf(job).value, e) == At(job.before, e)
  }

  lemma OriginalsAre(before: Folder, stashed: seq<Package>, e: string)
    requires AllThere(before, stashed) && DistinctKeys(stashed)
    ensures At(Originals(Parcels(before, stashed)), e) == if HasKey(stashed, e) then At(before, e) else None
  {
    var ps := Parcels(before, stashed);
    ParcelKeys(before, stashed, e);
    OriginalKeys(ps, e);
    if HasKey(stashed, e) {
      var p :| p in stashed && p.key == e;
      var i :| 0 <= i < |stashed| && stashed[i] == p;
      OriginalAt(ps, i);
    }
  }

  lemma SameFolder(a: Folder, b: Folder)
    requires forall e :: At(a, e) == At(b, e)
    ensures a == b
  {
    forall e
      ensures e in a <==> e in b
      ensures e in a && e in b ==> a[e] == b[e]
    {
      assert At(a, e) == At(b, e);
    }
  }

  /** The exact condition for an update to keep its packages: no stash path leads to or
      through another's, and each can be reached. */
  lemma IntactExactly(env: Env, s: State, op: Op, job: Job)
    requires Reaches(env, s, op, job)
    ensures Addressed(job.parcels) && (PackagesIntact(job) <==> Separate(job.parcels))
  {
    JobFacts(env, s, op, job);
    IntactIfSeparate(job.parcels);
    var all := Originals(job.parcels);
    forall e
      ensures At(all, e) == if HasKey(job.stashed, e) then At(job.before, e) else None
    {
      OriginalsAre(job.before, job.stashed, e);
    }
    if PackagesIntact(job) {
      SameFolder(BackOf(job).value, all);
    }
  }

  /** An install into a new directory is never rejected and has no packages to keep: it
      completes exactly when the archive has no directory where a configuration file goes
      and no user file that cannot be decoded. */
  lemma FreshInstall(env: Env, s: State, op: Op, job: Job)
    requires Reaches(env, s, op, job) && job.name !in s.dirs
    ensures !Rejected(job) && !Astray(job.stashed) && Addressed(job.parcels)
    ensures
      Raises(job)
      <==> IsBinary(At(job.prepared, USER)) || exists e :: WritesTo(job.rb, e) && IsTree(At(job.prepared, e))
  {
    JobFacts(env, s, op, job);
    NothingPreserved(RecordOf(s, job.name).packages);
    assert forall e :: Standing(job, e) == At(job.prepared, e);
  }

  lemma {:induction false} NothingPreserved(packages: seq<Package>)
    ensures Preserved(map[], packages) == []
  {
    if packages != [] {
      NothingPreserved(packages[..|packages| - 1]);
    }
  }

  ghost predicate Completes(env: Env, s: State, op: Op, job: Job, t: State) {
    && Reaches(env, s, op, job) && Step(env, s, op, t) && Addressed(job.parcels)
    && !Rejected(job) && !Astray(job.stashed) && !Raises(job)
  }

  lemma AllBackExactly(env: Env, s: State, op: Op, job: Job)
    requires Reaches(env, s, op, job) && Addressed(job.parcels) && !Raises(job)
    ensures BackOf(job).Some?
    ensures
      (forall key :: HasKey(RecordOf(s, job.name).packages, key) && key in job.before ==>
         At(BackOf(job).value, key) == At(job.before, key))
      <==> Separate(job.parcels)
  {
    JobFacts(env, s, op, job);
    StashRaises(env, s, op, job);
    IntactExactly(env, s, op, job);
  }

  /** Over an existing device: the recorded packages, as they were or in a directory, the
      storage images as they were, and everything else from the archive.  All packages
      are as they were exactly when they are separate. */
  lemma ContentsSurvive(env: Env, s: State, op: Op, job: Job, t: State, e: string)
    requires Completes(env, s, op, job, t) && !WritesTo(job.rb, e)
    ensures
      job.name in t.dirs &&
      var (x, before) := (At(t.dirs[job.name], e), FolderOf(s, job.name));
      if HasKey(RecordOf(s, job.name).packages, e) && e in before then KeptAs(job, e, x)
      else if HoldsStorage(env, before, e) then x == At(before, e)
      else x == At(job.prepared, e)
    ensures op.archive.Some? && Unpacked(op.archive.value, job.prepared) && job.before == FolderOf(s, job.name)
    ensures BackOf(job).Some?
    ensures
      (forall key :: HasKey(RecordOf(s, job.name).packages, key) && key in job.before ==>
         At(BackOf(job).value, key) == At(job.before, key))
      <==> Separate(job.parcels)
  {
    InstallOutcome(env, s, op, job, t);
    JobFacts(env, s, op, job);
    AllBackExactly(env, s, op, job);
    KeptExactly(env, job.before, e);
    RootIs(op.archive.value);
    assert At(t.dirs[job.name], e) == ExpectedIn(job, BackOf(job).value, e);
    if HasKey(job.stashed, e) {
      PackageComesBack(env, s, op, job, e);
    }
  }

  lemma LauncherKeysDiffer()
    ensures "repository_url" != "name_on_repository"
  {
    assert |"repository_url"| == 14 && |"name_on_repository"| == 18;
  }

  /** The link written is the link read, unless the repository or the name is empty. */
  lemma LinkReadsBack(user: Json.Object, url: string, name: string)
    ensures
      LinkOf(CerfUserJson.Apply(user, CerfUserJson.LauncherPatch(url, name)))
      == if url != "" && name != "" then Some((url, name)) else None
  {
    LauncherKeysDiffer();
    CerfUserJson.ApplyAt(user, CerfUserJson.LauncherPatch(url, name), "launcher");
  }

  /** The launcher block holds none of the launch options. */
  lemma LinkKeepsOptions(user: Json.Object, url: string, name: string)
    ensures
      CerfUserJson.Extract(CerfUserJson.Apply(user, CerfUserJson.LauncherPatch(url, name)))
      == CerfUserJson.Extract(user)
  {
    var p := CerfUserJson.LauncherPatch(url, name);
    CerfUserJson.MoreNamesDiffer();
    CerfUserJson.BlockNamesDiffer();
    forall f: CerfUserJson.Field
      ensures CerfUserJson.FieldValue(CerfUserJson.Apply(user, p), f)
              == CerfUserJson.ValueIn(CerfUserJson.Extract(user), f)
    {
      if f.FullScreen? {
        CerfUserJson.ApplyAt(user, p, "full_screen");
      } else {
        CerfUserJson.BlockElsewhere(user, p, CerfUserJson.BlockOf(f));
      }
    }
    CerfUserJson.SameFields(CerfUserJson.Apply(user, p), CerfUserJson.Extract(user));
  }

  /** The user file an install edits is the device's own. */
  lemma UserFileIsOwn(env: Env, s: State, op: Op, job: Job)
    requires Reaches(env, s, op, job) && Addressed(job.parcels) && !Raises(job) && IsFile(job.before, USER)
    ensures BackOf(job).Some?
    ensures Restored(job.before, job.kept, BackOf(job).value, job.prepared, USER) == At(job.before, USER)
  {
    JobFacts(env, s, op, job);
    StashRaises(env, s, op, job);
    if HasKey(job.stashed, USER) {
      PackageComesBack(env, s, op, job, USER);
      assert WritesTo(job.rb, USER) && !IsTree(Standing(job, USER));
    }
  }

  /** Adding the link to a user file changes nothing else in it. */
  lemma LinkKeepsRest(was: Json.Object, url: string, name: string)
    ensures
      var now := CerfUserJson.Apply(was, CerfUserJson.LauncherPatch(url, name));
      && (forall key :: key != "launcher" ==> Json.Get(now, key) == Json.Get(was, key))
      && CerfUserJson.Extract(now) == CerfUserJson.Extract(was)
  {
    var p := CerfUserJson.LauncherPatch(url, name);
    forall key | key != "launcher"
      ensures Json.Get(CerfUserJson.Apply(was, p), key) == Json.Get(was, key)
    {
      CerfUserJson.ApplyAt(was, p, key);
    }
    LinkKeepsOptions(was, url, name);
  }

  /** The user's file keeps every key but the launcher block, its launch options
      included, and links the device to the installed bundle. */
  lemma UserFileSurvives(env: Env, s: State, op: Op, job: Job, t: State)
    requires Completes(env, s, op, job, t) && IsFile(job.before, USER)
    ensures job.name in t.dirs
    ensures
      var (was, now) := (ObjectAt(job.before, USER), ObjectAt(t.dirs[job.name], USER));
      && (forall key :: key != "launcher" ==> Json.Get(now, key) == Json.Get(was, key))
      && CerfUserJson.Extract(now) == CerfUserJson.Extract(was)
  {
    InstalledUserFile(env, s, op, job, t);
    UserFileIsOwn(env, s, op, job);
    UserObjectAt(job.before);
    LinkKeepsRest(ObjectAt(job.before, USER), job.rb.repoUrl, job.rb.name);
  }

  /** The user file an install leaves: the restored one with the link in it. */
  lemma InstalledUserFile(env: Env, s: State, op: Op, job: Job, t: State)
    requires Completes(env, s, op, job, t)
    ensures
      job.name in t.dirs && BackOf(job).Some? &&
      ObjectAt(t.dirs[job.name], USER)
      == CerfUserJson.Apply(UserObject(Restored(job.before, job.kept, BackOf(job).value, job.prepared, USER)),
                            CerfUserJson.LauncherPatch(job.rb.repoUrl, job.rb.name))
  {
    InstallOutcome(env, s, op, job, t);
    assert At(t.dirs[job.name], USER) == ExpectedIn(job, BackOf(job).value, USER);
  }

  /** After any completed install the device is linked to the bundle it came from. */
  lemma InstalledIsLinked(env: Env, s: State, op: Op, job: Job, t: State)
    requires Completes(env, s, op, job, t)
    ensures
      job.name in t.dirs &&
      LinkOf(ObjectAt(t.dirs[job.name], USER))
      == if job.rb.repoUrl != "" && job.rb.name != "" then Some(IdentityOf(job.rb)) else None
  {
    InstalledUserFile(env, s, op, job, t);
    LinkReadsBack(UserObject(Restored(job.before, job.kept, BackOf(job).value, job.prepared, USER)),
                  job.rb.repoUrl, job.rb.name);
  }

  /** With plain categories and accepted keys nothing goes astray and every package comes
      back as it was. */
  lemma PlainPackagesSurvive(env: Env, s: State, op: Op, job: Job)
    requires Reaches(env, s, op, job)
    requires forall p :: p in RecordOf(s, job.name).packages ==> PlainPackage(p)
    ensures Addressed(job.parcels) && !Astray(job.stashed) && Separate(job.parcels) && PackagesIntact(job)
  {
    PreservedKeys(job.before, RecordOf(s, job.name).packages);
    PlainPackagesAreSeparate(job.before, job.stashed);
    IntactExactly(env, s, op, job);
  }

  // ----- a package, then an update -----

  lemma {:induction false} FindAfterDrop(packages: seq<Package>, pkg: Package, category: string, key: string)
    ensures
      FindPackage(DropPackage(packages, pkg.category, pkg.key) + [pkg], category, key)
      == if Is(pkg, category, key) then Some(pkg) else FindPackage(packages, category, key)
  {
    if packages == [] {
      assert DropPackage(packages, pkg.category, pkg.key) + [pkg] == [pkg];
    } else {
      FindAfterDrop(packages[1..], pkg, category, key);
      var rest := DropPackage(packages[1..], pkg.category, pkg.key);
      if !Is(packages[0], pkg.category, pkg.key) {
        assert ([packages[0]] + rest + [pkg])[1..] == rest + [pkg];
      }
    }
  }

  lemma {:induction false} FindRemoteIs(packages: seq<RemotePackage>, category: string, key: string)
    ensures
      var r := FindRemote(packages, category, key);
      r.Some? ==> r.value in packages && r.value.category == category && r.value.key == key
  {
    if packages != [] {
      FindRemoteIs(packages[1..], category, key);
    }
  }

  /** Recording a package answers for it from then on and changes no other answer. */
  lemma PackageIsRecorded(r: Record, pkg: RemotePackage, category: string, key: string)
    ensures
      var p := Package(pkg.category, pkg.key, pkg.isDirectory, if pkg.sha256.Some? then pkg.sha256.value else "");
      FindPackage(WithPackage(r, pkg).packages, category, key)
      == if Is(p, category, key) then Some(p) else FindPackage(r.packages, category, key)
  {
    FindAfterDrop(r.packages, Package(pkg.category, pkg.key, pkg.isDirectory, if pkg.sha256.Some? then pkg.sha256.value else ""), category, key);
  }

  lemma {:induction false} FoundIsThere(packages: seq<Package>, p: Package)
    ensures FindPackage(packages, p.category, p.key) == Some(p) ==> p in packages
  {
    if packages != [] {
      FoundIsThere(packages[1..], p);
    }
  }

  lemma PackageIsInstalled(env: Env, s: State, op: Op, t: State)
    requires op.InstallPackage? && Step(env, s, op, t) && PlanOf(env, s, op).Finish?
    ensures op.archive.Some? && op.name in t.dirs && op.name in t.installed.at
    ensures
      var pkg := LinkedPackage(env, s, op.name, op.category, op.key);
      && pkg.Some? && Artifact(pkg.value, Root(op.archive.value)).Some?
      && At(t.dirs[op.name], op.key) == Artifact(pkg.value, Root(op.archive.value))
    ensures HasKey(t.installed.at[op.name].packages, op.key)
  {
    var pkg := LinkedPackage(env, s, op.name, op.category, op.key).value;
    FindRemoteIs(RemoteFor(s.index, s.dirs[op.name]).value.packages, op.category, op.key);
    var r := t.installed.at[op.name];
    assert r == WithPackage(RecordOf(s, op.name), pkg);
    assert r.packages[|r.packages| - 1].key == op.key;
  }

  /** What is installed: the contents of the archive under the package's key, or the file
      of that name in it. */
  lemma InstalledArtifact(env: Env, s: State, op: Op, t: State, contents: Folder)
    requires op.InstallPackage? && Step(env, s, op, t) && PlanOf(env, s, op).Finish?
    requires op.archive.Some? ==> Unpacked(op.archive.value, contents)
    ensures op.name in t.dirs && LinkedPackage(env, s, op.name, op.category, op.key).Some?
    ensures
      var (pkg, x) := (LinkedPackage(env, s, op.name, op.category, op.key).value, At(t.dirs[op.name], op.key));
      if pkg.isDirectory then x == Some(Tree(contents))
      else op.key in contents && !contents[op.key].Tree? && x == Some(contents[op.key])
  {
    PackageIsInstalled(env, s, op, t);
    RootIs(op.archive.value);
    UnpackedOnce(op.archive.value, contents, Root(op.archive.value));
    FindRemoteIs(RemoteFor(s.index, s.dirs[op.name]).value.packages, op.category, op.key);
  }

  /** A package that was installed into a device is still there, byte for byte, after
      any completed update of the device, in a directory of its name if its stash path
      leads on to an earlier one's. */
  lemma PackageSurvivesUpdate(env: Env, s: State, package: Op, mid: State, update: Op, job: Job, t: State)
    requires package.InstallPackage? && Step(env, s, package, mid) && PlanOf(env, s, package).Finish?
    requires Completes(env, mid, update, job, t) && job.name == package.name && !WritesTo(job.rb, package.key)
    ensures package.archive.Some? && LinkedPackage(env, s, package.name, package.category, package.key).Some?
    ensures
      var pkg := LinkedPackage(env, s, package.name, package.category, package.key).value;
      job.name in t.dirs &&
      var (x, artifact) := (At(t.dirs[job.name], package.key), Artifact(pkg, Root(package.archive.value)));
      if Wrapped(job, package.key) then IsTree(x) && At(x.value.children, package.key) == artifact else x == artifact
    ensures job.name in t.installed.at && HasKey(t.installed.at[job.name].packages, package.key)
  {
    PackageIsInstalled(env, s, package, mid);
    assert RecordOf(mid, job.name) == mid.installed.at[package.name];
    assert job.before == mid.dirs[package.name];
    ContentsSurvive(env, mid, update, job, t, package.key);
    InstallOutcome(env, mid, update, job, t);
    JobFacts(env, mid, update, job);
  }

  // ----- the other operations -----

  lemma {:induction false} FindDropped(packages: seq<Package>, category: string, key: string, c: string, k: string)
    ensures
      FindPackage(DropPackage(packages, category, key), c, k)
      == if c == category && k == key then None else FindPackage(packages, c, k)
  {
    if packages != [] {
      FindDropped(packages[1..], category, key, c, k);
      var rest := DropPackage(packages[1..], category, key);
      if !Is(packages[0], category, key) {
        assert ([packages[0]] + rest)[1..] == rest;
      }
    }
  }

  /** Deleting a package removes its artifact and its record, and no other of the device. */
  lemma PackageIsDeleted(env: Env, s: State, op: Op, t: State, e: string, category: string, key: string)
    requires op.DeletePackage? && Step(env, s, op, t) && PlanOf(env, s, op).Finish?
    ensures At(FolderOf(t, op.name), e) == if e == op.key then None else At(FolderOf(s, op.name), e)
    ensures
      FindPackage(RecordOf(t, op.name).packages, category, key)
      == if category == op.category && key == op.key then None
         else FindPackage(RecordOf(s, op.name).packages, category, key)
  {
    FindDropped(RecordOf(s, op.name).packages, op.category, op.key, category, key);
  }

  /** What configuring a directory leaves of it. */
  lemma ConfiguredKeeps(folder: Folder, rb: RemoteBundle, e: string)
    requires Configured(folder, rb).Some?
    ensures !WritesTo(rb, e) ==> At(Configured(folder, rb).value, e) == At(folder, e)
    ensures
      e != "launcher" ==>
        Json.Get(ObjectAt(Configured(folder, rb).value, USER), e) == Json.Get(ObjectAt(folder, USER), e)
  {
    FileNamesDiffer();
    ConfiguredAt(folder, rb, e);
    ConfiguredAt(folder, rb, USER);
    CerfUserJson.ApplyAt(ObjectAt(folder, USER), CerfUserJson.LauncherPatch(rb.repoUrl, rb.name), e);
  }

  /** Preparing a manual install keeps every entry but the configuration files, the
      user's file but for its launcher block, and the recorded packages. */
  lemma PreparedKeeps(env: Env, s: State, op: Op, t: State, e: string)
    requires op.PrepareManual? && Step(env, s, op, t) && PlanOf(env, s, op).Finish?
    ensures
      var (name, rb) := (PlanOf(env, s, op).name, op.bundle);
      && (!WritesTo(rb, e) ==> At(FolderOf(t, name), e) == At(FolderOf(s, name), e))
      && (e != "launcher" ==>
            Json.Get(ObjectAt(FolderOf(t, name), USER), e) == Json.Get(ObjectAt(FolderOf(s, name), USER), e))
      && Get(t.installed, name) == Some(Record(Some(rb.updatedAt), rb.sha256, RecordOf(s, name).packages))
  {
    ConfiguredKeeps(FolderOf(s, PlanOf(env, s, op).name), op.bundle, e);
  }

  // ----- when an operation is refused -----

  /** The first package of that category and key. */
  predicate FirstPackage(packages: seq<RemotePackage>, category: string, key: string, pkg: RemotePackage) {
    pkg.category == category && pkg.key == key && exists i :: 0 <= i < |packages| && packages[i] == pkg && NoneBefore(packages, i, pkg)
  }

  predicate NoneBefore(packages: seq<RemotePackage>, i: int, pkg: RemotePackage) {
    forall j :: 0 <= j < i && j < |packages| ==> packages[j].category != pkg.category || packages[j].key != pkg.key
  }

  lemma {:induction false} FindRemoteExactly(packages: seq<RemotePackage>, category: string, key: string, pkg: RemotePackage)
    ensures FindRemote(packages, category, key) == Some(pkg) <==> FirstPackage(packages, category, key, pkg)
  {
    if packages != [] {
      var rest := packages[1..];
      FindRemoteExactly(rest, category, key, pkg);
      if packages[0].category == category && packages[0].key == key {
        assert packages[0] == pkg ==> packages[0] == pkg && NoneBefore(packages, 0, pkg);
      } else if pkg.category == category && pkg.key == key {
        if FirstPackage(rest, category, key, pkg) {
          var i :| 0 <= i < |rest| && rest[i] == pkg && NoneBefore(rest, i, pkg);
          assert packages[i + 1] == pkg && NoneBefore(packages, i + 1, pkg);
        }
        if FirstPackage(packages, category, key, pkg) {
          var i :| 0 <= i < |packages| && packages[i] == pkg && NoneBefore(packages, i, pkg);
          assert rest[i - 1] == pkg && NoneBefore(rest, i - 1, pkg);
        }
      }
    }
  }

  /** The device is linked to a bundle whose first package of that category and key is
      this. */
  ghost predicate Offers(env: Env, s: State, name: string, category: string, key: string, pkg: RemotePackage) {
    !Refused(env, name) && name in s.dirs && exists rb :: BundleOffers(s, s.dirs[name], rb, category, key, pkg)
  }

  ghost predicate BundleOffers(s: State, folder: Folder, rb: RemoteBundle, category: string, key: string, pkg: RemotePackage) {
    LinkedTo(s.index, folder, rb) && FirstPackage(rb.packages, category, key, pkg)
  }

  lemma LinkedPackageIs(env: Env, s: State, name: string, category: string, key: string, pkg: RemotePackage)
    ensures LinkedPackage(env, s, name, category, key) == Some(pkg) <==> Offers(env, s, name, category, key, pkg)
  {
    if !Refused(env, name) && name in s.dirs {
      var rb := RemoteFor(s.index, s.dirs[name]);
      if rb.Some? {
        RemoteIs(s.index, s.dirs[name], rb.value);
        FindRemoteExactly(rb.value.packages, category, key, pkg);
      }
      if Offers(env, s, name, category, key, pkg) {
        var b :| BundleOffers(s, s.dirs[name], b, category, key, pkg);
        RemoteIs(s.index, s.dirs[name], b);
      } else if LinkedPackage(env, s, name, category, key) == Some(pkg) {
        assert BundleOffers(s, s.dirs[name], rb.value, category, key, pkg);
      }
    }
  }

  lemma SomePackageIs(env: Env, s: State, name: string, category: string, key: string)
    ensures
      LinkedPackage(env, s, name, category, key).Some? <==> exists pkg :: Offers(env, s, name, category, key, pkg)
  {
    var found := LinkedPackage(env, s, name, category, key);
    if found.Some? {
      LinkedPackageIs(env, s, name, category, key, found.value);
    }
    if exists pkg :: Offers(env, s, name, category, key, pkg) {
      var pkg :| Offers(env, s, name, category, key, pkg);
      LinkedPackageIs(env, s, name, category, key, pkg);
    }
  }

  /** Recording a package is refused exactly when the device is not linked to a bundle
      that offers it. */
  lemma RecordRefused(env: Env, s: State, op: Op)
    requires op.RecordManualPackage?
    ensures PlanOf(env, s, op).Refuse? <==> !exists pkg :: Offers(env, s, op.name, op.category, op.key, pkg)
  {
    SomePackageIs(env, s, op.name, op.category, op.key);
  }

  /** Installing one, also when its download fails or lacks the file. */
  lemma InstallPackageRefused(env: Env, s: State, op: Op, contents: Folder)
    requires op.InstallPackage? && (op.archive.Some? ==> Unpacked(op.archive.value, contents))
    ensures
      PlanOf(env, s, op).Refuse?
      <==> op.archive.None?
           || !exists pkg ::
                Offers(env, s, op.name, op.category, op.key, pkg) && (pkg.isDirectory || IsFile(contents, op.key))
  {
    var found := LinkedPackage(env, s, op.name, op.category, op.key);
    if op.archive.Some? {
      RootIs(op.archive.value);
      UnpackedOnce(op.archive.value, contents, Root(op.archive.value));
    }
    if found.Some? {
      LinkedPackageIs(env, s, op.name, op.category, op.key, found.value);
    }
    forall pkg | Offers(env, s, op.name, op.category, op.key, pkg)
      ensures found == Some(pkg) && pkg.key == op.key
    {
      LinkedPackageIs(env, s, op.name, op.category, op.key, pkg);
    }
  }

  /** Applying the remote cerf.json is refused exactly when the device is not linked to a
      bundle that has one. */
  lemma RefreshConfigRefused(env: Env, s: State, op: Op)
    requires op.RefreshCerfJson?
    ensures
      PlanOf(env, s, op).Refuse?
      <==> Refused(env, op.name) || !exists rb :: LinkedTo(s.index, FolderOf(s, op.name), rb) && rb.cerfJson.Some?
  {
    var rb := RemoteFor(s.index, FolderOf(s, op.name));
    forall b
      ensures LinkedTo(s.index, FolderOf(s, op.name), b) <==> rb == Some(b)
    {
      RemoteIs(s.index, FolderOf(s, op.name), b);
    }
  }
}
