/** The device operations at work (launcher/operations.py): `BundleManager` changes the
    devices directory, the records and the manifest step by step, and every method is
    proved to carry out the plan of DeviceStore. */
module BundleManager {
  import opened Options
  import opened OrderedDict
  import opened LocalManifest
  import opened SafeNames
  import opened Folders
  import opened StashArea
  import opened DeviceStore
  import opened DeviceList
  import opened ManifestNormalForm
  import opened StableSort
  import CerfUserJson

  /** Unfollowed: a package would leave the stash, and the model ends there. */
  datatype Outcome = Done(name: string) | Refusal | Raised(name: string) | Unfollowed

  function OutcomeOf(plan: Plan): Outcome {
    match plan
    case Refuse => Refusal
    case Crash(name) => Raised(name)
    case Stray => Unfollowed
    case Finish(name, _, _) => Done(name)
  }

  // ----- facts about the loops -----

  lemma {:induction false} PreservedGrows(before: Folder, packages: seq<Package>, n: nat)
    requires n <= |packages|
    ensures Preserved(before, packages[..n]) <= Preserved(before, packages)
  {
    if n < |packages| {
      PreservedGrows(before, packages[..|packages| - 1], n);
      assert packages[..|packages| - 1][..n] == packages[..n];
    } else {
      assert packages[..n] == packages;
    }
  }

  /** The directory without the stashed artifacts. */
  function Remaining(before: Folder, stashed: seq<Package>): Folder {
    map e | e in before && !HasKey(stashed, e) :: before[e]
  }

  lemma RemainingLess(before: Folder, stashed: seq<Package>, p: Package)
    ensures Remaining(before, stashed + [p]) == Remaining(before, stashed) - {p.key}
  {
    forall e
      ensures HasKey(stashed + [p], e) <==> HasKey(stashed, e) || e == p.key
    {
      HasKeyAppend(stashed, p, e);
    }
  }

  lemma ParcelsMore(before: Folder, stashed: seq<Package>, p: Package)
    requires AllThere(before, stashed) && p.key in before
    ensures
      AllThere(before, stashed + [p]) &&
      Parcels(before, stashed + [p]) == Parcels(before, stashed) + [Parcel(PathOf(p), p.key, before[p.key])]
  {}

  lemma StashMore(ps: seq<Parcel>, p: Parcel)
    requires Addressed(ps) && p.path != []
    ensures
      Addressed(ps + [p]) &&
      Stash(ps + [p])
      == if Stash(ps).None? then None else MoveIn(Stash(ps).value, p.path, p.key, p.entry)
  {
    assert (ps + [p])[..|ps|] == ps;
  }

  /** A move that raises ends every stash it is part of. */
  lemma PrefixFails(before: Folder, some: seq<Package>, all: seq<Package>)
    requires some <= all && AllThere(before, all) && AllThere(before, some) && Stash(Parcels(before, some)).None?
    ensures Stash(Parcels(before, all)).None?
  {
    assert Parcels(before, all)[..|some|] == Parcels(before, some);
    StashFailsOn(Parcels(before, all), |some|);
  }

  predicate OddPath(p: Package) { exists part :: part in PathOf(p) && OddPart(part) }

  lemma AstrayMore(stashed: seq<Package>, p: Package)
    ensures Astray(stashed + [p]) <==> Astray(stashed) || OddPath(p)
  {
    var all := stashed + [p];
    assert p in all;
    if Astray(stashed) {
      var q :| q in stashed && OddPath(q);
      assert q in all;
    }
  }

  lemma AstrayOn(some: seq<Package>, all: seq<Package>)
    requires some <= all && Astray(some)
    ensures Astray(all)
  {
    var p :| p in some && OddPath(p);
    assert p in all;
  }

  /** What stays in the directory of the stashed packages and the user's file. */
  function WithoutUserFile(folder: Folder): Folder { if IsFile(folder, USER) then folder - {USER} else folder }

  lemma EmptiedIs(before: Folder, kept: set<string>, stashed: seq<Package>)
    ensures
      var left := WithoutUserFile(Remaining(before, stashed));
      Emptied(before, kept, stashed) == map e | e in left && e in kept :: left[e]
  {}

  lemma UserFileIs(before: Folder, stashed: seq<Package>)
    ensures IsFile(Remaining(before, stashed), USER) <==> IsFile(before, USER) && !HasKey(stashed, USER)
    ensures IsFile(Remaining(before, stashed), USER) ==> Remaining(before, stashed)[USER] == before[USER]
  {}

  lemma FilledNone(installed: Dict<Record>, dirs: map<string, Folder>, index: map<Identity, RemoteBundle>)
    ensures FilledSome(installed, dirs, index, {}) == installed
  {
    assert FilledSome(installed, dirs, index, {}).at == installed.at;
  }

  lemma FilledAll(installed: Dict<Record>, dirs: map<string, Folder>, index: map<Identity, RemoteBundle>)
    ensures FilledSome(installed, dirs, index, dirs.Keys) == Backfilled(installed, dirs, index)
  {
    assert FilledSome(installed, dirs, index, dirs.Keys).at == Backfilled(installed, dirs, index).at;
  }

  lemma FillOne(installed: Dict<Record>, dirs: map<string, Folder>, index: map<Identity, RemoteBundle>,
                seen: set<string>, name: string)
    requires ValidDict(installed) && name !in seen
    ensures
      var (before, after) := (FilledSome(installed, dirs, index, seen), FilledSome(installed, dirs, index, seen + {name}));
      if name !in installed.at || Filled(dirs, index, name, installed.at[name]) == installed.at[name]
      then after == before
      else
        && name in before.at && before.at[name] == installed.at[name]
        && after == Set(before, name, Filled(dirs, index, name, installed.at[name]))
        && after != installed
  {
    var (before, after) := (FilledSome(installed, dirs, index, seen), FilledSome(installed, dirs, index, seen + {name}));
    if name !in installed.at || Filled(dirs, index, name, installed.at[name]) == installed.at[name] {
      assert after.at == before.at;
    } else {
      assert after.at == before.at[name := Filled(dirs, index, name, installed.at[name])];
      assert after.at[name] != installed.at[name];
    }
  }

  lemma CutOffIs(s: State, bundles: seq<RemoteBundle>, seen: set<string>, t: State)
    requires exists n :: Stuck(s.dirs, Load(s.manifest), n)
    requires forall n :: n in seen ==> !Stuck(s.dirs, Load(s.manifest), n)
    requires t == State(s.dirs, FilledSome(Load(s.manifest), s.dirs, Index(bundles), seen), s.manifest, bundles, Index(bundles))
    ensures CutOff(s) && Refreshes(s, bundles, t)
  {
    assert NoneStuck(s, seen) && t == AfterCutOff(s, bundles, seen);
  }

  lemma BackfillIs(s: State, bundles: seq<RemoteBundle>, t: State)
    requires ValidDict(t.installed) && !exists n :: Stuck(s.dirs, Load(s.manifest), n)
    requires
      t == State(s.dirs, Backfilled(Load(s.manifest), s.dirs, Index(bundles)),
                 if t.installed != Load(s.manifest) then Parsed(Save(t.installed)) else s.manifest, bundles, Index(bundles))
    ensures !CutOff(s) && Refreshes(s, bundles, t)
  {}

  lemma PutIsCarried(s: State, name: string, folder: Folder, r: Record, t: State)
    requires ValidDict(t.installed) && t.installed == Set(s.installed, name, r)
    requires t == s.(dirs := s.dirs[name := folder], installed := t.installed, manifest := Parsed(Save(t.installed)))
    ensures Carried(s, Finish(name, Some(folder), Put(r)), t)
  {}

  lemma DeleteIsCarried(env: Env, s: State, name: string, category: string, key: string, t: State)
    requires SafeName(key) && !Refused(env, name) && ValidDict(t.installed)
    requires
      var dirs := if name in s.dirs then s.dirs[name := s.dirs[name] - {key}] else s.dirs - {name};
      var r := RecordOf(s, name);
      if name in s.installed.at then
        && t == s.(dirs := dirs, installed := t.installed, manifest := Parsed(Save(t.installed)))
        && t.installed == Set(s.installed, name, r.(packages := DropPackage(r.packages, category, key)))
      else t == s.(dirs := dirs)
    ensures Carried(s, PlanDeletePackage(env, s, name, category, key), t)
  {}

  lemma WreckIsCarried(s: State, name: string, folder: Folder, t: State)
    requires t == s.(dirs := s.dirs[name := folder])
    ensures Carried(s, Crash(name), t)
  {
    assert s.dirs[name := folder] - {name} == s.dirs - {name};
  }

  /** The refill of a directory whose entries outside the kept ones are removed first. */
  method Refill(left: Folder, kept: set<string>, prepared: Folder) returns (target: Folder)
    ensures target == (map e | e in left && e in kept :: left[e]) + prepared
  {
    if kept == {} {
      target := prepared;
      return;
    }
    target := left;
    var todo := left.Keys;
    while todo != {}
      invariant todo <= left.Keys
      invariant target == map e | e in left && (e in kept || e in todo) :: left[e]
      decreases todo
    {
      var e :| e in todo;
      if e !in kept {
        target := target - {e};
      }
      todo := todo - {e};
    }
    ghost var rest := target;
    todo := prepared.Keys;
    while todo != {}
      invariant todo <= prepared.Keys
      invariant target == rest + map e | e in prepared && e !in todo :: prepared[e]
      decreases todo
    {
      var e :| e in todo;
      target := target[e := prepared[e]];
      todo := todo - {e};
    }
    assert (map e | e in prepared && e !in todo :: prepared[e]) == prepared;
  }

  /** The packages put back, one after the other, at the end of `_do_install`. */
  method Restore(start: Folder, stash: Entry, ps: seq<Parcel>) returns (target: Folder, done: bool)
    requires Addressed(ps)
    ensures done <==> TakeBack(stash, ps).Some?
    ensures done ==> target == start + TakeBack(stash, ps).value.folder
  {
    var area := stash;
    target, done := start, true;
    ghost var got: Folder := map[];
    assert start + got == start;
    for i := 0 to |ps|
      invariant TakeBack(stash, ps[..i]) == Some(Taken(area, got)) && target == start + got
    {
      assert ps[..i + 1][..i] == ps[..i];
      var x := Look(area, ps[i].path);
      if x.None? {
        TakeBackFailsOn(stash, ps, i + 1);
        return target, false;
      }
      assert (start + got)[ps[i].key := x.value] == start + got[ps[i].key := x.value];
      target, area, got := target[ps[i].key := x.value], Remove(area, ps[i].path), got[ps[i].key := x.value];
    }
    assert ps[..|ps|] == ps;
  }

  /** How the work on a directory ends: at its end, by an error, or with a package that
      would leave the stash. */
  datatype Ending = Complete | Failed | Lost

  class Manager {
    const env: Env
    var dirs: map<string, Folder>
    var installed: Dict<Record>
    var manifest: Manifest
    var remotes: seq<RemoteBundle>
    var index: map<Identity, RemoteBundle>

    function State(): State
      reads this
    {
      DeviceStore.State(dirs, installed, manifest, remotes, index)
    }

    ghost predicate Valid()
      reads this
    {
      ValidDict(installed) && (manifest.Parsed? ==> WellFormed(manifest.doc))
    }

    constructor (env: Env, dirs: map<string, Folder>, manifest: Manifest)
      requires manifest.Parsed? ==> WellFormed(manifest.doc)
      ensures Valid() && State() == DeviceStore.State(dirs, Empty(), manifest, [], map[]) && this.env == env
    {
      this.env, this.dirs, this.manifest := env, dirs, manifest;
      installed, remotes, index := Empty(), [], map[];
    }

    /** `save_local_manifest` under the manifest lock. */
    method SaveManifest()
      requires Valid()
      modifies this`manifest
      ensures Valid() && manifest == Parsed(Save(installed))
    {
      SavedIsWellFormed(installed);
      manifest := SaveLocalManifest(installed);
    }

    method LoadLocal()
      requires Valid()
      modifies this`installed
      ensures Valid() && Step(env, old(State()), Op.LoadLocal, State())
    {
      LoadedIsNormal(manifest);
      installed := LoadLocalManifest(manifest);
    }

    method BuildIndex(bundles: seq<RemoteBundle>) returns (m: map<Identity, RemoteBundle>)
      ensures m == Index(bundles)
    {
      m := map[];
      for i := 0 to |bundles|
        invariant m == Index(bundles[..i])
      {
        assert bundles[..i + 1][..i] == bundles[..i];
        m := m[IdentityOf(bundles[i]) := bundles[i]];
      }
      assert bundles[..|bundles|] == bundles;
    }

    /** `_backfill_installed_sha256`; it raises on a user file that cannot be decoded,
        with the hashes filled so far in memory only. */
    method BackfillHashes() returns (raised: bool, ghost seen: set<string>)
      requires Valid()
      modifies this`installed, this`manifest
      ensures Valid() && raised == exists n :: Stuck(dirs, old(installed), n)
      ensures
        raised ==>
          && installed == FilledSome(old(installed), dirs, index, seen) && manifest == old(manifest)
          && forall n :: n in seen ==> !Stuck(dirs, old(installed), n)
      ensures
        !raised ==>
          && installed == Backfilled(old(installed), dirs, index)
          && manifest == if installed != old(installed) then Parsed(Save(installed)) else old(manifest)
    {
      ghost var start := installed;
      seen, raised := {}, false;
      var changed, todo := false, dirs.Keys;
      FilledNone(start, dirs, index);
      while todo != {}
        invariant todo <= dirs.Keys && seen == dirs.Keys - todo
        invariant installed == FilledSome(start, dirs, index, seen) && ValidDict(installed)
        invariant changed <==> installed != start
        invariant manifest == old(manifest)
        invariant forall n :: n in seen ==> !Stuck(dirs, start, n)
        decreases todo
      {
        var name :| name in todo;
        FillOne(start, dirs, index, seen, name);
        if SafeName(name) && name in installed.at && installed.at[name].sha256.None? {
          if ReadRaises(dirs[name], USER) {
            assert Stuck(dirs, start, name);
            return true, seen;
          }
          var rb := RemoteFor(index, dirs[name]);
          if rb.Some? && rb.value.sha256.Some? {
            installed := Set(installed, name, installed.at[name].(sha256 := rb.value.sha256));
            changed := true;
          }
        }
        todo, seen := todo - {name}, seen + {name};
      }
      assert seen == dirs.Keys;
      FilledAll(start, dirs, index);
      if changed {
        SaveManifest();
      }
    }

    /** `_do_refresh` once the remote manifests are merged. */
    method DoRefresh(bundles: seq<RemoteBundle>) returns (raised: bool)
      requires Valid()
      modifies this
      ensures Valid() && Step(env, old(State()), Refresh(bundles), State())
      ensures raised <==> CutOff(old(State()))
    {
      ghost var s := State();
      LoadLocal();
      remotes := bundles;
      index := BuildIndex(bundles);
      ghost var seen;
      raised, seen := BackfillHashes();
      if raised {
        CutOffIs(s, bundles, seen, State());
      } else {
        BackfillIs(s, bundles, State());
      }
    }

    /** `_allocate_dir_name`; None when none of the given draws is free. */
    method AllocateDirName(base: string, draws: seq<string>) returns (name: Option<string>)
      ensures name == Allocated(dirs, base, draws)
    {
      if base !in dirs {
        return Some(base);
      }
      for i := 0 to |draws|
        invariant FirstFree(dirs, base, draws) == FirstFree(dirs, base, draws[i..])
      {
        var cand := base + "_" + draws[i];
        if cand !in dirs {
          return Some(cand);
        }
        assert draws[i..][1..] == draws[i + 1..];
      }
      name := None;
    }

    method ChooseName(base: string, dirName: Option<string>, draws: seq<string>) returns (name: Option<string>)
      ensures name == NameFor(State(), base, dirName, draws)
    {
      if dirName.Some? {
        name := dirName;
      } else {
        name := AllocateDirName(base, draws);
      }
    }

    /** `_kept_storage_entries`, without the test against the archive. */
    method KeptEntries(before: Folder) returns (kept: set<string>)
      ensures kept == Kept(env, before)
    {
      var values := StorageValues(env, before);
      kept := {};
      var todo := values.Keys;
      while todo != {}
        invariant todo <= values.Keys
        invariant kept == set e | e in before && exists id :: id in values && id !in todo && LeadsTo(env, values[id], e)
        decreases todo
      {
        var id :| id in todo;
        ghost var was := todo;
        todo := todo - {id};
        var entry := env.topEntry(values[id]);
        if entry.Some? && entry.value in before {
          kept := kept + {entry.value};
        }
        assert forall d, e :: d in values && d !in todo && LeadsTo(env, values[d], e) ==>
          d == id || (d !in was && LeadsTo(env, values[d], e));
      }
    }

    /** `_stash_installed_packages`. */
    method StashPackages(before: Folder, packages: seq<Package>)
      returns (target: Folder, preserved: seq<Package>, area: Entry, end: Ending)
      ensures AllThere(before, Preserved(before, packages))
      ensures end.Lost? ==> Astray(Preserved(before, packages))
      ensures end.Failed? ==> Stash(Parcels(before, Preserved(before, packages))).None?
      ensures
        end.Complete? ==>
          && preserved == Preserved(before, packages) && !Astray(preserved)
          && target == Remaining(before, preserved) && Stash(Parcels(before, preserved)) == Some(area)
    {
      PreservedKeys(before, packages);
      target, preserved, area, end := before, [], Tree(map[]), Complete;
      assert Remaining(before, []) == before;
      for i := 0 to |packages|
        invariant preserved == Preserved(before, packages[..i]) && AllThere(before, preserved) && !Astray(preserved)
        invariant target == Remaining(before, preserved) && Stash(Parcels(before, preserved)) == Some(area)
      {
        var p := packages[i];
        assert packages[..i + 1][..i] == packages[..i];
        if p.key in target {
          PreservedGrows(before, packages, i + 1);
          AstrayMore(preserved, p);
          if OddPath(p) {
            AstrayOn(preserved + [p], Preserved(before, packages));
            end := Lost;
            return;
          }
          ParcelsMore(before, preserved, p);
          StashMore(Parcels(before, preserved), Parcel(PathOf(p), p.key, before[p.key]));
          var moved := MoveIn(area, PathOf(p), p.key, target[p.key]);
          if moved.None? {
            PrefixFails(before, preserved + [p], Preserved(before, packages));
            end := Failed;
            return;
          }
          RemainingLess(before, preserved, p);
          target, area, preserved := target - {p.key}, moved.value, preserved + [p];
        }
      }
      assert packages[..|packages|] == packages;
    }

    method WriteConfiguration(folder: Folder, rb: RemoteBundle) returns (f: Option<Folder>)
      ensures f == Configured(folder, rb)
    {
      f := Some(folder);
      if rb.cerfJson.Some? {
        f := PutJson(folder, CERF, rb.cerfJson.value);
        if f.None? {
          return;
        }
      }
      if ReadRaises(f.value, USER) {
        return None;
      }
      var user := CerfUserJson.Apply(ObjectAt(f.value, USER), CerfUserJson.LauncherPatch(rb.repoUrl, rb.name));
      f := PutJson(f.value, USER, user);
    }

    method Record(name: string, r: Record)
      requires Valid()
      modifies this`installed, this`manifest
      ensures Valid() && installed == Set(old(installed), name, r) && manifest == Parsed(Save(installed))
    {
      SetIsValid(installed, name, r);
      installed := Set(installed, name, r);
      SaveManifest();
    }

    /** The stashed user file put back, and the configuration written. */
    method Configure(folder: Folder, before: Folder, preserved: seq<Package>, userFile: Option<Entry>, rb: RemoteBundle)
      returns (target: Folder, done: bool)
      requires userFile == if IsFile(before, USER) && !HasKey(preserved, USER) then Some(before[USER]) else None
      ensures
        (var f := UserFileBack(before, preserved, folder); if f.None? then None else Configured(f.value, rb))
        == if done then Some(target) else None
    {
      target := folder;
      if userFile.Some? {
        if USER in target && target[USER].Tree? {
          return target, false;
        }
        target := target[USER := userFile.value];
      }
      var f := WriteConfiguration(target, rb);
      done := f.Some?;
      target := if done then f.value else target;
    }

    /** The directory work of `_do_install`: what is in the directory at the end, and
        how the end was reached. */
    method Rebuild(before: Folder, packages: seq<Package>, kept: set<string>, prepared: Folder, rb: RemoteBundle)
      returns (target: Folder, preserved: seq<Package>, end: Ending)
      ensures AllThere(before, Preserved(before, packages))
      ensures end.Lost? ==> Astray(Preserved(before, packages))
      ensures
        end.Failed? ==>
          var all := Preserved(before, packages);
          var back := Back(Parcels(before, all));
          back.None? || InstalledFolder(before, kept, all, back.value, prepared, rb).None?
      ensures
        end.Complete? ==>
          && preserved == Preserved(before, packages) && !Astray(preserved)
          && var back := Back(Parcels(before, preserved));
          && back.Some? && InstalledFolder(before, kept, preserved, back.value, prepared, rb) == Some(target)
    {
      var area;
      target, preserved, area, end := StashPackages(before, packages);
      if !end.Complete? {
        return;
      }
      UserFileIs(before, preserved);
      EmptiedIs(before, kept, preserved);
      var userFile := if IsFile(target, USER) then Some(target[USER]) else None;
      target := Refill(WithoutUserFile(target), kept, prepared);
      var done;
      target, done := Restore(target, area, Parcels(before, preserved));
      if done {
        assert target == Rebuilt(before, kept, preserved, Back(Parcels(before, preserved)).value, prepared);
        target, done := Configure(target, before, preserved, userFile, rb);
      }
      end := if done then Complete else Failed;
    }

    /** The directory gets its new contents, the record is put and the manifest saved. */
    method Conclude(name: string, folder: Folder, r: LocalManifest.Record)
      requires Valid()
      modifies this`dirs, this`installed, this`manifest
      ensures Valid() && Carried(old(State()), Finish(name, Some(folder), Put(r)), State())
    {
      ghost var s := State();
      dirs := dirs[name := folder];
      Record(name, r);
      PutIsCarried(s, name, folder, r, State());
    }

    /** The directory is left half done. */
    method Abandon(name: string, folder: Folder)
      requires Valid()
      modifies this`dirs
      ensures Valid() && Carried(old(State()), Crash(name), State())
    {
      ghost var s := State();
      dirs := dirs[name := folder];
      WreckIsCarried(s, name, folder, State());
    }

    /** The part of `_do_install` after the download. */
    method Replace(name: string, rb: RemoteBundle, prepared: Folder) returns (out: Outcome)
      requires Valid()
      modifies this`dirs, this`installed, this`manifest
      ensures Valid() && Carried(old(State()), PlanReplace(env, old(State()), name, rb, prepared), State())
      ensures
        var plan := PlanReplace(env, old(State()), name, rb, prepared);
        plan.Stray? || out == OutcomeOf(plan)
    {
      ghost var plan := PlanReplace(env, State(), name, rb, prepared);
      var before := FolderOf(State(), name);
      if CannotBeRead(before) {
        return Refusal;
      }
      var kept := KeptEntries(before);
      if exists e :: e in kept && e in prepared {
        return Refusal;
      }
      var target, preserved, end := Rebuild(before, RecordOf(State(), name).packages, kept, prepared, rb);
      if end.Lost? {
        assert plan == Stray;
        return Unfollowed;
      }
      if end.Failed? {
        assert plan == Stray || plan == Crash(name);
        Abandon(name, target);
        return Raised(name);
      }
      var r := LocalManifest.Record(Some(rb.updatedAt), rb.sha256, preserved);
      assert plan == Finish(name, Some(target), Put(r));
      Conclude(name, target, r);
      out := Done(name);
    }

    /** `_do_install`; archive is the verified and extracted download, if there is one. */
    method DoInstall(url: string, remoteName: string, dirName: Option<string>, draws: seq<string>,
                     archive: Option<Folder>) returns (out: Outcome)
      requires Valid()
      modifies this`dirs, this`installed, this`manifest
      ensures Valid() && Step(env, old(State()), Install(url, remoteName, dirName, draws, archive), State())
      ensures
        var plan := PlanInstall(env, old(State()), url, remoteName, dirName, draws, archive);
        plan.Stray? || out == OutcomeOf(plan)
    {
      if (url, remoteName) !in index {
        return Refusal;
      }
      var rb := index[(url, remoteName)];
      var name := ChooseName(rb.name, dirName, draws);
      if name.None? || Refused(env, name.value) || archive.None? {
        return Refusal;
      }
      out := Replace(name.value, rb, Root(archive.value));
    }

    /** `prepare_manual_install`. */
    method DoPrepareManual(rb: RemoteBundle, dirName: Option<string>, draws: seq<string>) returns (out: Outcome)
      requires Valid()
      modifies this`dirs, this`installed, this`manifest
      ensures Valid() && Step(env, old(State()), PrepareManual(rb, dirName, draws), State())
      ensures out == OutcomeOf(PlanPrepareManual(env, old(State()), rb, dirName, draws))
    {
      var chosen := ChooseName(rb.name, dirName, draws);
      if chosen.None? || Refused(env, chosen.value) {
        return Refusal;
      }
      ghost var plan := PlanPrepareManual(env, State(), rb, dirName, draws);
      var name := chosen.value;
      var folder := FolderOf(State(), name);
      var f := WriteConfiguration(folder, rb);
      if f.None? {
        assert plan == Crash(name);
        Abandon(name, folder);
        return Raised(name);
      }
      var r := RecordOf(State(), name).(updatedAt := Some(rb.updatedAt), sha256 := rb.sha256);
      assert plan == Finish(name, f, Put(r));
      Conclude(name, f.value, r);
      out := Done(name);
    }

    /** `prepare_manual_install_package`. */
    method DoRecordManualPackage(name: string, category: string, key: string) returns (out: Outcome)
      requires Valid()
      modifies this`dirs, this`installed, this`manifest
      ensures Valid() && Step(env, old(State()), RecordManualPackage(name, category, key), State())
      ensures out == OutcomeOf(PlanRecordManual(env, old(State()), name, category, key))
    {
      var pkg := LinkedPackage(env, State(), name, category, key);
      if pkg.None? {
        return Refusal;
      }
      ghost var s := State();
      var r := WithPackage(RecordOf(State(), name), pkg.value);
      assert s.dirs[name := FolderOf(s, name)] == s.dirs;
      Record(name, r);
      PutIsCarried(s, name, FolderOf(s, name), r, State());
      out := Done(name);
    }

    /** `_do_install_package`. */
    method DoInstallPackage(name: string, category: string, key: string, archive: Option<Folder>) returns (out: Outcome)
      requires Valid()
      modifies this`dirs, this`installed, this`manifest
      ensures Valid() && Step(env, old(State()), InstallPackage(name, category, key, archive), State())
      ensures out == OutcomeOf(PlanInstallPackage(env, old(State()), name, category, key, archive))
    {
      var pkg := LinkedPackage(env, State(), name, category, key);
      if pkg.None? || archive.None? {
        return Refusal;
      }
      var prepared := Root(archive.value);
      var artifact := Tree(prepared);
      if !pkg.value.isDirectory {
        if !IsFile(prepared, pkg.value.key) {
          return Refusal;
        }
        artifact := prepared[pkg.value.key];
      }
      var r := WithPackage(RecordOf(State(), name), pkg.value);
      Conclude(name, dirs[name][pkg.value.key := artifact], r);
      out := Done(name);
    }

    /** `_do_delete_package`. */
    method DoDeletePackage(name: string, category: string, key: string) returns (out: Outcome)
      requires Valid()
      modifies this`dirs, this`installed, this`manifest
      ensures Valid() && Step(env, old(State()), DeletePackage(name, category, key), State())
      ensures out == OutcomeOf(PlanDeletePackage(env, old(State()), name, category, key))
    {
      if !SafeName(key) || Refused(env, name) {
        return Refusal;
      }
      ghost var s := State();
      RemoveArtifact(name, key);
      if name in installed.at {
        var r := installed.at[name];
        Record(name, r.(packages := DropPackage(r.packages, category, key)));
      }
      DeleteIsCarried(env, s, name, category, key, State());
      out := Done(name);
    }

    /** `remove_artifact` of an entry of a device directory, which may not be there. */
    method RemoveArtifact(name: string, key: string)
      requires Valid()
      modifies this`dirs
      ensures Valid()
      ensures
        dirs == if name in old(dirs) then old(dirs)[name := old(dirs)[name] - {key}] else old(dirs) - {name}
    {
      if name in dirs {
        dirs := dirs[name := dirs[name] - {key}];
      } else {
        assert dirs - {name} == dirs;
      }
    }

    /** `_do_delete`. */
    method DoDelete(name: string) returns (out: Outcome)
      requires Valid()
      modifies this`dirs, this`installed, this`manifest
      ensures Valid() && Step(env, old(State()), Delete(name), State())
      ensures out == OutcomeOf(PlanOf(env, old(State()), Delete(name)))
    {
      if Refused(env, name) {
        return Refusal;
      }
      dirs := dirs - {name};
      PopIsValid(installed, name);
      installed := Pop(installed, name);
      SaveManifest();
      out := Done(name);
    }

    /** `_do_refresh_cerf_json`. */
    method DoRefreshCerfJson(name: string) returns (out: Outcome)
      requires Valid()
      modifies this`dirs
      ensures Valid() && Step(env, old(State()), RefreshCerfJson(name), State())
      ensures out == OutcomeOf(PlanRefreshCerfJson(env, old(State()), name))
    {
      if Refused(env, name) {
        return Refusal;
      }
      var rb := RemoteFor(index, FolderOf(State(), name));
      if rb.None? || rb.value.cerfJson.None? {
        return Refusal;
      }
      var f := PutJson(FolderOf(State(), name), CERF, rb.value.cerfJson.value);
      if f.None? {
        return Raised(name);
      }
      dirs := dirs[name := f.value];
      out := Done(name);
    }

    /** `list_devices`, over a listing of the devices directory; it raises if a
        configuration file of a device cannot be decoded. */
    method ListDevices(listing: seq<string>) returns (out: Option<seq<Row>>)
      requires Lists(State(), listing) && ProperRemotes(State())
      ensures out.None? <==> exists n :: Listed(State(), n) && CannotBeRead(dirs[n])
      ensures
        && (forall k :: k in Rows(State(), listing).keys <==> k in Rows(State(), listing).at)
        && (out.Some? ==> out.value == Sort(ByRowName(), Values(Rows(State(), listing))))
    {
      ghost var s := State();
      RowsAreValid(s, listing);
      var local := ListLocal(listing);
      if local.None? {
        return None;
      }
      var result := ListAvailable(local.value.rows, local.value.claimed);
      out := Some(Sort(ByRowName(), Values(result)));
    }

    /** The loop over the device directories. */
    method ListLocal(listing: seq<string>) returns (local: Option<LocalList>)
      requires Lists(State(), listing)
      ensures local.None? <==> exists n :: Listed(State(), n) && CannotBeRead(dirs[n])
      ensures local.Some? ==> local.value == LocalList(LocalRows(State(), listing), Claimed(State(), listing))
    {
      ghost var s := State();
      var list := LocalList(Empty(), {});
      for i := 0 to |listing|
        invariant list == LocalList(LocalRows(s, listing[..i]), Claimed(s, listing[..i]))
        invariant ReadSoFar(s, listing[..i])
      {
        assert listing[i] in listing && listing[i] in dirs;
        assert listing[..i + 1] == listing[..i] + [listing[i]];
        if SafeName(listing[i]) && CannotBeRead(dirs[listing[i]]) {
          assert Listed(s, listing[i]);
          return None;
        }
        list := AddLocal(list, listing[..i], listing[i]);
      }
      assert listing[..|listing|] == listing;
      AllRead(s, listing);
      local := Some(list);
    }

    /** One directory more. */
    method AddLocal(list: LocalList, ghost front: seq<string>, name: string) returns (after: LocalList)
      requires list == LocalList(LocalRows(State(), front), Claimed(State(), front)) && name in dirs
      ensures after == LocalList(LocalRows(State(), front + [name]), Claimed(State(), front + [name]))
    {
      ghost var s := State();
      assert (front + [name])[..|front|] == front;
      ClaimedGrows(s, front, name);
      after := list;
      if SafeName(name) {
        var rb := RemoteFor(index, dirs[name]);
        var claimed := if rb.Some? then list.claimed + {IdentityOf(rb.value)} else list.claimed;
        after := LocalList(Set(list.rows, name, LocalRow(State(), name)), claimed);
      }
    }

    /** The loop over the remote bundles. */
    method ListAvailable(rows: Dict<Row>, claimed: set<Identity>) returns (result: Dict<Row>)
      ensures result == AddAvailable(rows, claimed, remotes)
    {
      result := rows;
      for i := 0 to |remotes|
        invariant result == AddAvailable(rows, claimed, remotes[..i])
      {
        var rb := remotes[i];
        assert remotes[..i + 1][..i] == remotes[..i];
        if IdentityOf(rb) !in claimed {
          result := Set(result, KeyOf(IdentityOf(rb)), AvailableRow(rb));
        }
      }
      assert remotes[..|remotes|] == remotes;
    }
  }

  /** The configuration files of the device directories named can be read. */
  ghost predicate ReadSoFar(s: State, names: seq<string>) {
    forall j :: 0 <= j < |names| && Listed(s, names[j]) ==> !CannotBeRead(s.dirs[names[j]])
  }

  lemma AllRead(s: State, listing: seq<string>)
    requires Lists(s, listing) && ReadSoFar(s, listing)
    ensures forall n :: Listed(s, n) ==> !CannotBeRead(s.dirs[n])
  {
    forall n | Listed(s, n)
      ensures !CannotBeRead(s.dirs[n])
    {
      var j :| 0 <= j < |listing| && listing[j] == n;
    }
  }

  datatype LocalList = LocalList(rows: Dict<Row>, claimed: set<Identity>)

  lemma ClaimedGrows(s: State, listing: seq<string>, name: string)
    ensures
      Claimed(s, listing + [name])
      == Claimed(s, listing)
         + if Listed(s, name) && RemoteFor(s.index, s.dirs[name]).Some?
           then {IdentityOf(RemoteFor(s.index, s.dirs[name]).value)} else {}
  {}
}
