/** What the device operations of launcher/operations.py do to the devices
    directory, the install records and the local manifest.

    An operation is refused before it changes anything, or it finishes, or it raises
    half way: then nothing is said of the directory it was working on. */
module DeviceStore {
  import opened Options
  import opened OrderedDict
  import opened LocalManifest
  import opened SafeNames
  import opened Folders
  import opened StashArea
  import Json
  import CerfUserJson

  // ----- the remote side -----

  datatype RemotePackage = RemotePackage(category: string, key: string, isDirectory: bool, sha256: Option<string>)
  datatype RemoteBundle = RemoteBundle(
    name: string, repoUrl: string, updatedAt: string, sha256: Option<string>,
    cerfJson: Option<Json.Object>, packages: seq<RemotePackage>)

  type Identity = (string, string)

  function IdentityOf(rb: RemoteBundle): Identity { (rb.repoUrl, rb.name) }

  function FindRemote(packages: seq<RemotePackage>, category: string, key: string): Option<RemotePackage> {
    if packages == [] then None
    else if packages[0].category == category && packages[0].key == key then Some(packages[0])
    else FindRemote(packages[1..], category, key)
  }

  /** `{(rb.repo_url, rb.name): rb for rb in remote_bundles}`. */
  function Index(remotes: seq<RemoteBundle>): map<Identity, RemoteBundle> {
    if remotes == [] then map[]
    else Index(remotes[..|remotes| - 1])[IdentityOf(remotes[|remotes| - 1]) := remotes[|remotes| - 1]]
  }

  // ----- the launcher link -----

  function FullString(obj: Json.Object, key: string): Option<string> {
    if key in obj && obj[key].Str? && obj[key].s != "" then Some(obj[key].s) else None
  }

  /** `read_launcher_link`. */
  function LinkOf(user: Json.Object): Option<Identity> {
    var block := CerfUserJson.Block(user, "launcher");
    var (url, name) := (FullString(block, "repository_url"), FullString(block, "name_on_repository"));
    if url.Some? && name.Some? then Some((url.value, name.value)) else None
  }

  /** `_remote_for_dir` of a directory whose user file can be read. */
  function RemoteFor(index: map<Identity, RemoteBundle>, folder: Folder): Option<RemoteBundle> {
    var link := LinkOf(ObjectAt(folder, USER));
    if link.Some? && link.value in index then Some(index[link.value]) else None
  }

  // ----- the state -----

  /** Fixed surroundings: which device names are links, the entry of the device
      directory a configured path leads to (if any), and the storage types of a board. */
  datatype Env = Env(links: set<string>, topEntry: string -> Option<string>, storageIds: string -> seq<string>)

  datatype State = State(
    dirs: map<string, Folder>, installed: Dict<Record>, manifest: Manifest,
    remotes: seq<RemoteBundle>, index: map<Identity, RemoteBundle>)

  predicate Refused(env: Env, name: string) { !SafeName(name) || name in env.links }

  function FolderOf(s: State, name: string): Folder { if name in s.dirs then s.dirs[name] else map[] }

  function RecordOf(s: State, name: string): Record {
    if name in s.installed.at then s.installed.at[name] else Record(None, None, [])
  }

  /** The first free one of base and base_<draw>. */
  function Allocated(dirs: map<string, Folder>, base: string, draws: seq<string>): Option<string> {
    if base !in dirs then Some(base) else FirstFree(dirs, base, draws)
  }

  function FirstFree(dirs: map<string, Folder>, base: string, draws: seq<string>): Option<string> {
    if draws == [] then None
    else if base + "_" + draws[0] !in dirs then Some(base + "_" + draws[0])
    else FirstFree(dirs, base, draws[1..])
  }

  // ----- installing over a device -----

  /** The configured storage files, and the default one of each storage type of the
      board that has none configured. */
  function StorageValues(env: Env, folder: Folder): map<string, string> {
    var (base, user) := (ObjectAt(folder, CERF), ObjectAt(folder, USER));
    var board := CerfUserJson.TextOr(CerfUserJson.Layered(base, user, "board"), "id", "");
    (map id | id in env.storageIds(board) :: CerfUserJson.StorageDefault(id))
    + CerfUserJson.Layered(base, user, "storage")
  }

  predicate LeadsTo(env: Env, value: string, entry: string) { env.topEntry(value) == Some(entry) }

  /** `_kept_storage_entries`. */
  function Kept(env: Env, before: Folder): set<string> {
    var values := StorageValues(env, before);
    set e | e in before && exists id :: id in values && LeadsTo(env, values[id], e)
  }

  predicate HasKey(packages: seq<Package>, key: string) { exists p :: p in packages && p.key == key }

  /** `_stash_installed_packages`: the recorded packages whose artifact is there; of
      two records of one artifact the first. */
  function Preserved(before: Folder, packages: seq<Package>): seq<Package> {
    if packages == [] then []
    else
      var (front, p) := (Preserved(before, packages[..|packages| - 1]), packages[|packages| - 1]);
      if p.key in before && !HasKey(front, p.key) then front + [p] else front
  }

  lemma HasKeyAppend(packages: seq<Package>, p: Package, key: string)
    ensures HasKey(packages + [p], key) <==> HasKey(packages, key) || p.key == key
  {
    if HasKey(packages, key) {
      var q :| q in packages && q.key == key;
      assert q in packages + [p];
    }
    assert p in packages + [p];
  }

  predicate DistinctKeys(packages: seq<Package>) {
    forall i, j :: 0 <= i < j < |packages| ==> packages[i].key != packages[j].key
  }

  predicate AllThere(before: Folder, packages: seq<Package>) { forall p :: p in packages ==> p.key in before }

  /** Exactly the artifacts that are there and recorded are preserved, each once. */
  lemma {:induction false} PreservedKeys(before: Folder, packages: seq<Package>)
    ensures DistinctKeys(Preserved(before, packages)) && AllThere(before, Preserved(before, packages))
    ensures forall p :: p in Preserved(before, packages) ==> p in packages
    ensures forall key :: HasKey(Preserved(before, packages), key) <==> key in before && HasKey(packages, key)
  {
    if packages != [] {
      var (front, p) := (packages[..|packages| - 1], packages[|packages| - 1]);
      PreservedKeys(before, front);
      assert packages == front + [p];
      forall key
        ensures HasKey(Preserved(before, packages), key) <==> key in before && HasKey(packages, key)
      {
        HasKeyAppend(front, p, key);
        HasKeyAppend(Preserved(before, front), p, key);
      }
      if p.key in before && !HasKey(Preserved(before, front), p.key) {
        assert forall q :: q in Preserved(before, front) ==> q.key != p.key;
      }
    }
  }

  /** The preserved packages on their way to the stash. */
  function Parcels(before: Folder, stashed: seq<Package>): (ps: seq<Parcel>)
    requires AllThere(before, stashed)
    ensures Addressed(ps) && |ps| == |stashed|
  {
    seq(|stashed|, i requires 0 <= i < |stashed| => Parcel(PathOf(stashed[i]), stashed[i].key, before[stashed[i].key]))
  }

  /** What is left in the directory once the stashes are taken and all but the kept
      entries are removed. */
  function Emptied(before: Folder, kept: set<string>, stashed: seq<Package>): Folder {
    map e | e in before && e in kept && !HasKey(stashed, e) && !(e == USER && IsFile(before, USER)) :: before[e]
  }

  /** The archive moved in, then the packages put back. */
  function Rebuilt(before: Folder, kept: set<string>, stashed: seq<Package>, back: Folder, prepared: Folder): Folder {
    Emptied(before, kept, stashed) + prepared + back
  }

  /** The stashed cerf-user.json put back. */
  function UserFileBack(before: Folder, stashed: seq<Package>, folder: Folder): Option<Folder> {
    if !IsFile(before, USER) || HasKey(stashed, USER) then Some(folder)
    else if USER in folder && folder[USER].Tree? then None
    else Some(folder[USER := before[USER]])
  }

  /** cerf.json from the remote manifest, then the launcher link. */
  function Configured(folder: Folder, rb: RemoteBundle): Option<Folder> {
    var f := if rb.cerfJson.Some? then PutJson(folder, CERF, rb.cerfJson.value) else Some(folder);
    if f.None? || ReadRaises(f.value, USER) then None
    else PutJson(f.value, USER, CerfUserJson.Apply(ObjectAt(f.value, USER), CerfUserJson.LauncherPatch(rb.repoUrl, rb.name)))
  }

  function InstalledFolder(before: Folder, kept: set<string>, stashed: seq<Package>, back: Folder, prepared: Folder,
                           rb: RemoteBundle): Option<Folder>
  {
    var f := UserFileBack(before, stashed, Rebuilt(before, kept, stashed, back, prepared));
    if f.None? then None else Configured(f.value, rb)
  }

  // ----- operations -----

  datatype Op =
    | Install(url: string, remoteName: string, dirName: Option<string>, draws: seq<string>, archive: Option<Folder>)
    | PrepareManual(bundle: RemoteBundle, dirName: Option<string>, draws: seq<string>)
    | RecordManualPackage(name: string, category: string, key: string)
    | InstallPackage(name: string, category: string, key: string, archive: Option<Folder>)
    | DeletePackage(name: string, category: string, key: string)
    | Delete(name: string)
    | RefreshCerfJson(name: string)
    | LoadLocal
    | Refresh(remotes: seq<RemoteBundle>)

  datatype Change = Leave | Put(record: Record) | Drop

  /** How an operation ends: refused with nothing changed, raised while working on one
      directory, or finished with a new directory (None: removed) and a record change.
      Every record change is followed by a save.  Stray: a package goes to another
      place than its stash path spells, and nothing is said. */
  datatype Plan = Refuse | Crash(name: string) | Stray | Finish(name: string, folder: Option<Folder>, change: Change)

  /** One of the configuration files cannot be decoded. */
  predicate CannotBeRead(folder: Folder) { ReadRaises(folder, CERF) || ReadRaises(folder, USER) }

  function PlanReplace(env: Env, s: State, name: string, rb: RemoteBundle, prepared: Folder): Plan {
    var before := FolderOf(s, name);
    var kept := Kept(env, before);
    var stashed := Preserved(before, RecordOf(s, name).packages);
    PreservedKeys(before, RecordOf(s, name).packages);
    if CannotBeRead(before) || exists e :: e in kept && e in prepared then Refuse
    else if Astray(stashed) then Stray
    else
      var back := Back(Parcels(before, stashed));
      if back.None? then Crash(name)
      else
        var f := InstalledFolder(before, kept, stashed, back.value, prepared, rb);
        if f.None? then Crash(name) else Finish(name, f, Put(Record(Some(rb.updatedAt), rb.sha256, stashed)))
  }

  function NameFor(s: State, base: string, dirName: Option<string>, draws: seq<string>): Option<string> {
    if dirName.Some? then dirName else Allocated(s.dirs, base, draws)
  }

  function PlanInstall(env: Env, s: State, url: string, remoteName: string, dirName: Option<string>,
                       draws: seq<string>, archive: Option<Folder>): Plan
  {
    if (url, remoteName) !in s.index then Refuse
    else
      var rb := s.index[(url, remoteName)];
      var name := NameFor(s, rb.name, dirName, draws);
      if name.None? || Refused(env, name.value) || archive.None? then Refuse
      else PlanReplace(env, s, name.value, rb, Root(archive.value))
  }

  function PlanPrepareManual(env: Env, s: State, rb: RemoteBundle, dirName: Option<string>, draws: seq<string>): Plan {
    var name := NameFor(s, rb.name, dirName, draws);
    if name.None? || Refused(env, name.value) then Refuse
    else
      var f := Configured(FolderOf(s, name.value), rb);
      if f.None? then Crash(name.value)
      else Finish(name.value, f, Put(RecordOf(s, name.value).(updatedAt := Some(rb.updatedAt), sha256 := rb.sha256)))
  }

  /** The remote package of a device that is linked to a known bundle. */
  function LinkedPackage(env: Env, s: State, name: string, category: string, key: string): Option<RemotePackage> {
    if Refused(env, name) || name !in s.dirs then None
    else
      var rb := RemoteFor(s.index, s.dirs[name]);
      if rb.None? then None else FindRemote(rb.value.packages, category, key)
  }

  function WithPackage(r: Record, pkg: RemotePackage): Record {
    r.(packages := DropPackage(r.packages, pkg.category, pkg.key)
                   + [Package(pkg.category, pkg.key, pkg.isDirectory, if pkg.sha256.Some? then pkg.sha256.value else "")])
  }

  function PlanRecordManual(env: Env, s: State, name: string, category: string, key: string): Plan {
    var pkg := LinkedPackage(env, s, name, category, key);
    if pkg.None? then Refuse else Finish(name, Some(FolderOf(s, name)), Put(WithPackage(RecordOf(s, name), pkg.value)))
  }

  /** What a package archive puts into the device directory under the package's key. */
  function Artifact(pkg: RemotePackage, prepared: Folder): Option<Entry> {
    if pkg.isDirectory then Some(Tree(prepared))
    else if IsFile(prepared, pkg.key) then Some(prepared[pkg.key])
    else None
  }

  function PlanInstallPackage(env: Env, s: State, name: string, category: string, key: string,
                              archive: Option<Folder>): Plan
  {
    var pkg := LinkedPackage(env, s, name, category, key);
    if pkg.None? || archive.None? then Refuse
    else
      var artifact := Artifact(pkg.value, Root(archive.value));
      if artifact.None? then Refuse
      else Finish(name, Some(FolderOf(s, name)[pkg.value.key := artifact.value]),
                  Put(WithPackage(RecordOf(s, name), pkg.value)))
  }

  function PlanDeletePackage(env: Env, s: State, name: string, category: string, key: string): Plan {
    if !SafeName(key) || Refused(env, name) then Refuse
    else
      var r := RecordOf(s, name);
      Finish(name, if name in s.dirs then Some(s.dirs[name] - {key}) else None,
             if name in s.installed.at then Put(r.(packages := DropPackage(r.packages, category, key))) else Leave)
  }

  function PlanRefreshCerfJson(env: Env, s: State, name: string): Plan {
    var rb := RemoteFor(s.index, FolderOf(s, name));
    if Refused(env, name) || rb.None? || rb.value.cerfJson.None? then Refuse
    else
      var f := PutJson(FolderOf(s, name), CERF, rb.value.cerfJson.value);
      if f.None? then Crash(name) else Finish(name, f, Leave)
  }

  function PlanOf(env: Env, s: State, op: Op): Plan
    requires !op.LoadLocal? && !op.Refresh?
  {
    match op
    case Install(url, remoteName, dirName, draws, archive) =>
      PlanInstall(env, s, url, remoteName, dirName, draws, archive)
    case PrepareManual(rb, dirName, draws) => PlanPrepareManual(env, s, rb, dirName, draws)
    case RecordManualPackage(name, category, key) => PlanRecordManual(env, s, name, category, key)
    case InstallPackage(name, category, key, archive) => PlanInstallPackage(env, s, name, category, key, archive)
    case DeletePackage(name, category, key) => PlanDeletePackage(env, s, name, category, key)
    case Delete(name) => if Refused(env, name) then Refuse else Finish(name, None, Drop)
    case RefreshCerfJson(name) => PlanRefreshCerfJson(env, s, name)
  }

  function Changed(installed: Dict<Record>, name: string, change: Change): Dict<Record> {
    match change
    case Leave => installed
    case Put(r) => Set(installed, name, r)
    case Drop => Pop(installed, name)
  }

  /** The plan is carried out. */
  ghost predicate Carried(s: State, plan: Plan, t: State) {
    match plan
    case Refuse => t == s
    case Crash(name) => t.(dirs := t.dirs - {name}) == s.(dirs := s.dirs - {name})
    case Stray => true
    case Finish(name, folder, change) =>
      && ValidDict(t.installed)
      && t == s.(
           dirs := if folder.Some? then s.dirs[name := folder.value] else s.dirs - {name},
           installed := Changed(s.installed, name, change),
           manifest := if change.Leave? then s.manifest else Parsed(Save(t.installed)))
  }

  /** `_backfill_installed_sha256`: the hash a record without one gets. */
  function Filled(dirs: map<string, Folder>, index: map<Identity, RemoteBundle>, name: string, r: Record): Record {
    if !SafeName(name) || name !in dirs || r.sha256.Some? then r
    else
      var rb := RemoteFor(index, dirs[name]);
      if rb.Some? && rb.value.sha256.Some? then r.(sha256 := rb.value.sha256) else r
  }

  function Backfilled(installed: Dict<Record>, dirs: map<string, Folder>, index: map<Identity, RemoteBundle>): Dict<Record> {
    Dict(installed.keys, map n | n in installed.at :: Filled(dirs, index, n, installed.at[n]))
  }

  /** The records after the backfill has seen some of the directories. */
  function FilledSome(installed: Dict<Record>, dirs: map<string, Folder>, index: map<Identity, RemoteBundle>,
                      seen: set<string>): Dict<Record>
  {
    Dict(installed.keys,
         map n | n in installed.at :: if n in seen then Filled(dirs, index, n, installed.at[n]) else installed.at[n])
  }

  /** The backfill raises on this device: its record lacks a hash and its user file
      cannot be decoded. */
  predicate Stuck(dirs: map<string, Folder>, installed: Dict<Record>, n: string) {
    SafeName(n) && n in dirs && n in installed.at && installed.at[n].sha256.None? && ReadRaises(dirs[n], USER)
  }

  ghost predicate CutOff(s: State) { exists n :: Stuck(s.dirs, Load(s.manifest), n) }

  ghost predicate NoneStuck(s: State, seen: set<string>) { forall n :: n in seen ==> !Stuck(s.dirs, Load(s.manifest), n) }

  /** What a refresh that raises leaves when it has seen the given directories. */
  function AfterCutOff(s: State, remotes: seq<RemoteBundle>, seen: set<string>): State {
    State(s.dirs, FilledSome(Load(s.manifest), s.dirs, Index(remotes), seen), s.manifest, remotes, Index(remotes))
  }

  /** `_do_refresh`, with the remote manifests already merged into a list.  A backfill
      that raises leaves the hashes it has filled so far, unsaved. */
  ghost predicate Refreshes(s: State, remotes: seq<RemoteBundle>, t: State) {
    var loaded := Load(s.manifest);
    var index := Index(remotes);
    if CutOff(s) then exists seen :: NoneStuck(s, seen) && t == AfterCutOff(s, remotes, seen)
    else
      && ValidDict(t.installed)
      && t == State(s.dirs, Backfilled(loaded, s.dirs, index),
                    if t.installed != loaded then Parsed(Save(t.installed)) else s.manifest, remotes, index)
  }

  ghost predicate Step(env: Env, s: State, op: Op, t: State) {
    match op
    case LoadLocal => t == s.(installed := Load(s.manifest))
    case Refresh(remotes) => Refreshes(s, remotes, t)
    case _ => Carried(s, PlanOf(env, s, op), t)
  }
}
