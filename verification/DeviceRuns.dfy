/** What every run of device operations keeps (launcher/operations.py). */
module DeviceRuns {
  import opened Options
  import opened OrderedDict
  import opened LocalManifest
  import opened DeviceStore
  import opened DeviceInputs
  import opened DeviceInstall
  import opened ManifestNormalForm
  import opened SafeNames
  import opened StableSort
  import opened Folders

  // ----- the invariant -----

  /** The saved manifest loads to the records in memory, up to the normalisation of a load. */
  ghost predicate InStep(installed: Dict<Record>, m: Manifest) {
    && ValidDict(Load(m)) && Load(m).at.Keys == installed.at.Keys
    && forall n :: n in installed.at ==> Load(m).at[n] == Normalise(installed.at[n])
  }

  /** The saved record is the one in memory, or lacks a hash that was filled in since. */
  predicate Behind(r: Record, saved: Record) {
    saved == Normalise(r) || (saved.sha256.None? && saved == Normalise(r.(sha256 := None)))
  }

  ghost predicate Follows(installed: Dict<Record>, m: Manifest) {
    && ValidDict(Load(m)) && Load(m).at.Keys == installed.at.Keys
    && forall n :: n in installed.at ==> Behind(installed.at[n], Load(m).at[n])
  }

  ghost predicate AllOneEach(records: map<string, Record>) { forall n :: n in records ==> OneEach(records[n].packages) }

  ghost predicate Good(s: State) {
    ValidDict(s.installed) && Follows(s.installed, s.manifest) && AllOneEach(s.installed.at)
  }

  /** Just loaded from a manifest that records no package twice. */
  ghost predicate Fresh(s: State) {
    && (s.manifest.Parsed? ==> WellFormed(s.manifest.doc))
    && s.installed == Load(s.manifest) && AllOneEach(s.installed.at)
  }

  lemma FreshIsGood(s: State)
    requires Fresh(s)
    ensures Good(s) && InStep(s.installed, s.manifest)
  {
    LoadedIsNormal(s.manifest);
  }

  lemma SavedInStep(installed: Dict<Record>)
    requires ValidDict(installed)
    ensures InStep(installed, Parsed(Save(installed)))
  {
    SaveThenLoad(installed);
  }

  lemma LoadedAgain(s: State)
    requires Good(s)
    ensures
      var d := Load(s.manifest);
      ValidDict(d) && InStep(d, s.manifest) && AllOneEach(d.at) && AllNormal(d.at)
  {
    forall n | n in s.installed.at
      ensures IsNormal(Load(s.manifest).at[n])
      ensures OneEach(Load(s.manifest).at[n].packages)
    {
      var r := s.installed.at[n];
      NormalisedIsNormal(r);
      NormalisedIsNormal(r.(sha256 := None));
      NormaliseKeepsOneEach(r);
      NormaliseKeepsOneEach(r.(sha256 := None));
    }
  }

  lemma WithPackageKeepsOneEach(r: Record, pkg: RemotePackage)
    requires OneEach(r.packages)
    ensures OneEach(WithPackage(r, pkg).packages)
  {
    var f := (p: Package) => !Is(p, pkg.category, pkg.key);
    OneEachFiltered(f, r.packages);
    FilterFacts(f, r.packages);
    OneEachAppend(DropPackage(r.packages, pkg.category, pkg.key),
                  [Package(pkg.category, pkg.key, pkg.isDirectory, if pkg.sha256.Some? then pkg.sha256.value else "")]);
  }

  lemma RecordIsOneEach(s: State, name: string)
    requires AllOneEach(s.installed.at)
    ensures OneEach(RecordOf(s, name).packages)
  {}

  /** Every record an operation writes has at most one entry per package. */
  lemma PlannedRecord(env: Env, s: State, op: Op)
    requires !op.LoadLocal? && !op.Refresh? && AllOneEach(s.installed.at)
    ensures
      var plan := PlanOf(env, s, op);
      plan.Finish? && plan.change.Put? ==> OneEach(plan.change.record.packages)
  {
    match op
    case Install(url, remoteName, dirName, draws, archive) =>
      if PlanOf(env, s, op).Finish? {
        var name := PlanOf(env, s, op).name;
        PreservedKeys(FolderOf(s, name), RecordOf(s, name).packages);
        DistinctKeysAreOneEach(Preserved(FolderOf(s, name), RecordOf(s, name).packages));
      }
    case PrepareManual(rb, dirName, draws) =>
      if PlanOf(env, s, op).Finish? {
        RecordIsOneEach(s, PlanOf(env, s, op).name);
      }
    case RecordManualPackage(name, category, key) =>
      RecordIsOneEach(s, name);
      if PlanOf(env, s, op).Finish? {
        WithPackageKeepsOneEach(RecordOf(s, name), LinkedPackage(env, s, name, category, key).value);
      }
    case InstallPackage(name, category, key, archive) =>
      RecordIsOneEach(s, name);
      if PlanOf(env, s, op).Finish? {
        WithPackageKeepsOneEach(RecordOf(s, name), LinkedPackage(env, s, name, category, key).value);
      }
    case DeletePackage(name, category, key) =>
      RecordIsOneEach(s, name);
      OneEachFiltered((p: Package) => !Is(p, category, key), RecordOf(s, name).packages);
    case Delete(name) =>
    case RefreshCerfJson(name) =>
  }

  /** A package would leave the stash. */
  predicate Strays(env: Env, s: State, op: Op) { !op.LoadLocal? && !op.Refresh? && PlanOf(env, s, op).Stray? }

  /** A refresh whose backfill raises. */
  ghost predicate IsCutOff(s: State, op: Op) { op.Refresh? && CutOff(s) }

  lemma CarriedKeepsGood(s: State, plan: Plan, t: State)
    requires Good(s) && Carried(s, plan, t) && !plan.Stray?
    requires plan.Finish? && plan.change.Put? ==> OneEach(plan.change.record.packages)
    ensures Good(t) && (InStep(s.installed, s.manifest) ==> InStep(t.installed, t.manifest))
  {
    if plan.Finish? && !plan.change.Leave? {
      SavedInStep(t.installed);
    }
  }

  lemma BackfilledKeepsPackages(installed: Dict<Record>, dirs: map<string, Folder>, index: map<Identity, RemoteBundle>)
    requires ValidDict(installed) && AllOneEach(installed.at)
    ensures var d := Backfilled(installed, dirs, index); ValidDict(d) && AllOneEach(d.at)
  {}

  lemma RefreshKeepsGood(s: State, remotes: seq<RemoteBundle>, t: State)
    requires Good(s) && Refreshes(s, remotes, t) && !CutOff(s)
    ensures Good(t) && InStep(t.installed, t.manifest)
  {
    LoadedAgain(s);
    BackfilledKeepsPackages(Load(s.manifest), s.dirs, Index(remotes));
    if t.installed != Load(s.manifest) {
      SavedInStep(t.installed);
    }
  }

  lemma FilledIsAhead(dirs: map<string, Folder>, index: map<Identity, RemoteBundle>, n: string, saved: Record)
    requires IsNormal(saved)
    ensures
      var r := Filled(dirs, index, n, saved);
      && Behind(r, saved) && r.packages == saved.packages
      && (Normalise(r) == saved <==> r == saved || r.sha256 == Some(""))
  {
    var r := Filled(dirs, index, n, saved);
    if r != saved {
      assert r.(sha256 := None) == saved;
      assert Normalise(r).packages == Normalise(saved).packages;
    }
  }

  /** The records in memory are ahead of the loaded ones by filled hashes only. */
  ghost predicate Ahead(now: Dict<Record>, loaded: Dict<Record>) {
    && ValidDict(now) && now.at.Keys == loaded.at.Keys && AllOneEach(now.at)
    && forall n :: n in now.at ==> AheadAt(now.at[n], loaded.at[n])
  }

  predicate AheadAt(r: Record, saved: Record) {
    Behind(r, saved) && (Normalise(r) == saved <==> r == saved || r.sha256 == Some(""))
  }

  lemma FilledSomeIsAhead(loaded: Dict<Record>, dirs: map<string, Folder>, index: map<Identity, RemoteBundle>,
                          seen: set<string>)
    requires ValidDict(loaded) && AllOneEach(loaded.at) && AllNormal(loaded.at)
    ensures Ahead(FilledSome(loaded, dirs, index, seen), loaded)
  {
    forall n | n in loaded.at
      ensures AheadAt(FilledSome(loaded, dirs, index, seen).at[n], loaded.at[n])
      ensures OneEach(FilledSome(loaded, dirs, index, seen).at[n].packages)
    {
      FilledIsAhead(dirs, index, n, loaded.at[n]);
    }
  }

  lemma CutOffIsAhead(s: State, remotes: seq<RemoteBundle>, t: State)
    requires Good(s) && Refreshes(s, remotes, t) && CutOff(s)
    ensures t.manifest == s.manifest && Ahead(t.installed, Load(s.manifest))
  {
    LoadedAgain(s);
    var seen :| t.installed == FilledSome(Load(s.manifest), s.dirs, Index(remotes), seen);
    FilledSomeIsAhead(Load(s.manifest), s.dirs, Index(remotes), seen);
  }

  lemma CutOffKeepsGood(s: State, remotes: seq<RemoteBundle>, t: State)
    requires Good(s) && Refreshes(s, remotes, t) && CutOff(s)
    ensures Good(t)
  {
    CutOffIsAhead(s, remotes, t);
  }

  /** The device can get the hash h: it has a directory that is linked to the last remote
      bundle of its repository and name, and that bundle has the hash. */
  ghost predicate CanGet(dirs: map<string, Folder>, remotes: seq<RemoteBundle>, n: string, h: string) {
    SafeName(n) && n in dirs && exists rb :: Provides(dirs[n], remotes, rb, h)
  }

  predicate Provides(folder: Folder, remotes: seq<RemoteBundle>, rb: RemoteBundle, h: string) {
    Links(folder, rb.repoUrl, rb.name) && LastOf(remotes, rb) && rb.sha256 == Some(h)
  }

  lemma FilledIs(dirs: map<string, Folder>, remotes: seq<RemoteBundle>, n: string, r: Record, h: string)
    ensures
      r.sha256.None? && CanGet(dirs, remotes, n, h) ==>
        Filled(dirs, Index(remotes), n, r) == Record(r.updatedAt, Some(h), r.packages)
  {
    if CanGet(dirs, remotes, n, h) {
      var rb :| Provides(dirs[n], remotes, rb, h);
      LinkedAfterIndex(remotes, dirs[n], rb);
      RemoteIs(Index(remotes), dirs[n], rb);
    }
  }

  lemma NotFilledIs(dirs: map<string, Folder>, remotes: seq<RemoteBundle>, n: string, r: Record)
    ensures r.sha256.Some? || (forall h :: !CanGet(dirs, remotes, n, h)) ==> Filled(dirs, Index(remotes), n, r) == r
  {
    if SafeName(n) && n in dirs && RemoteFor(Index(remotes), dirs[n]).Some? {
      var rb := RemoteFor(Index(remotes), dirs[n]).value;
      RemoteIs(Index(remotes), dirs[n], rb);
      LinkedAfterIndex(remotes, dirs[n], rb);
      if rb.sha256.Some? {
        assert Provides(dirs[n], remotes, rb, rb.sha256.value) && CanGet(dirs, remotes, n, rb.sha256.value);
      }
    }
  }

  /** A refresh that does not raise gives exactly the loaded records without a hash the
      one their device can get, and changes no other; the manifest then saved loads to
      the records in memory. */
  lemma RefreshFillsExactly(s: State, remotes: seq<RemoteBundle>, t: State, n: string, h: string)
    requires Good(s) && Refreshes(s, remotes, t) && !CutOff(s)
    ensures n in t.installed.at <==> n in Load(s.manifest).at
    ensures
      n in t.installed.at ==>
        var (saved, now) := (Load(s.manifest).at[n], t.installed.at[n]);
        && (saved.sha256.None? && CanGet(s.dirs, remotes, n, h) ==> now == Record(saved.updatedAt, Some(h), saved.packages))
        && (saved.sha256.Some? || (forall g :: !CanGet(s.dirs, remotes, n, g)) ==> now == saved)
        && n in Load(t.manifest).at && Load(t.manifest).at[n] == Normalise(now)
  {
    RefreshKeepsGood(s, remotes, t);
    if n in t.installed.at {
      FilledIs(s.dirs, remotes, n, Load(s.manifest).at[n], h);
      NotFilledIs(s.dirs, remotes, n, Load(s.manifest).at[n]);
    }
  }

  /** The device's record lacks a hash, and the bundle its readable user file links it to
      has one that is not empty. */
  predicate Fillable(s: State, remotes: seq<RemoteBundle>, n: string) {
    && n in Load(s.manifest).at && !Stuck(s.dirs, Load(s.manifest), n)
    && GetsHash(s.dirs, Index(remotes), n, Load(s.manifest).at[n])
  }

  predicate GetsHash(dirs: map<string, Folder>, index: map<Identity, RemoteBundle>, n: string, r: Record) {
    Filled(dirs, index, n, r) != r && Filled(dirs, index, n, r).sha256 != Some("")
  }

  ghost predicate FallsBehind(t: State) { !InStep(t.installed, t.manifest) }

  /** The manifest is behind exactly when one of the directories seen was fillable. */
  lemma BehindIfFilled(s: State, remotes: seq<RemoteBundle>, seen: set<string>)
    requires Good(s) && NoneStuck(s, seen)
    ensures FallsBehind(AfterCutOff(s, remotes, seen)) <==> exists n :: n in seen && Fillable(s, remotes, n)
  {
    LoadedAgain(s);
    var (loaded, t) := (Load(s.manifest), AfterCutOff(s, remotes, seen));
    FilledSomeIsAhead(loaded, s.dirs, Index(remotes), seen);
    forall n | n in loaded.at
      ensures Normalise(t.installed.at[n]) == loaded.at[n] <==> n !in seen || !Fillable(s, remotes, n)
    {
      assert AheadAt(t.installed.at[n], loaded.at[n]);
    }
  }

  lemma SeenIsOutcome(s: State, remotes: seq<RemoteBundle>, seen: set<string>)
    requires CutOff(s) && NoneStuck(s, seen)
    ensures Refreshes(s, remotes, AfterCutOff(s, remotes, seen))
  {}

  lemma FallsBehindOn(s: State, remotes: seq<RemoteBundle>, n: string)
    requires Good(s) && CutOff(s) && Fillable(s, remotes, n)
    ensures Refreshes(s, remotes, AfterCutOff(s, remotes, {n})) && FallsBehind(AfterCutOff(s, remotes, {n}))
  {
    SeenIsOutcome(s, remotes, {n});
    BehindIfFilled(s, remotes, {n});
  }

  /** A refresh that raises can leave the manifest behind, depending on the order in which
      it meets the directories, if and only if some device is fillable. */
  lemma CutOffFallsBehind(s: State, remotes: seq<RemoteBundle>)
    requires Good(s) && CutOff(s)
    ensures (exists t :: Refreshes(s, remotes, t) && FallsBehind(t)) <==> exists n :: Fillable(s, remotes, n)
  {
    if exists n :: Fillable(s, remotes, n) {
      var n :| Fillable(s, remotes, n);
      FallsBehindOn(s, remotes, n);
    }
    if exists t :: Refreshes(s, remotes, t) && FallsBehind(t) {
      var t :| Refreshes(s, remotes, t) && FallsBehind(t);
      var seen :| NoneStuck(s, seen) && t == AfterCutOff(s, remotes, seen);
      BehindIfFilled(s, remotes, seen);
    }
  }

  /** No operation breaks the invariant, and all but such a refresh keep the manifest in
      step. */
  lemma StepKeepsGood(env: Env, s: State, op: Op, t: State)
    requires Good(s) && Step(env, s, op, t) && !Strays(env, s, op)
    ensures Good(t)
    ensures InStep(s.installed, s.manifest) && !IsCutOff(s, op) ==> InStep(t.installed, t.manifest)
  {
    match op
    case LoadLocal => LoadedAgain(s);
    case Refresh(remotes) =>
      if CutOff(s) {
        CutOffKeepsGood(s, remotes, t);
      } else {
        RefreshKeepsGood(s, remotes, t);
      }
    case _ =>
      PlannedRecord(env, s, op);
      CarriedKeepsGood(s, PlanOf(env, s, op), t);
  }

  ghost predicate Run(env: Env, states: seq<State>, ops: seq<Op>) {
    && |states| == |ops| + 1
    && forall i, j :: 0 <= i && j == i + 1 && j < |states| ==> Step(env, states[i], ops[i], states[j])
  }

  /** No package of any update in the run leaves the stash. */
  ghost predicate Tidy(env: Env, states: seq<State>, ops: seq<Op>)
    requires |states| == |ops| + 1
  {
    forall i :: 0 <= i < |ops| ==> !Strays(env, states[i], ops[i])
  }

  ghost predicate NoneCutOff(states: seq<State>, ops: seq<Op>)
    requires |states| == |ops| + 1
  {
    forall i :: 0 <= i < |ops| ==> !IsCutOff(states[i], ops[i])
  }

  lemma RunStep(env: Env, states: seq<State>, ops: seq<Op>, i: nat)
    requires Run(env, states, ops) && i < |ops|
    ensures Step(env, states[i], ops[i], states[i + 1])
  {
    var j := i + 1;
    assert Step(env, states[i], ops[i], states[j]);
  }

  /** From a duplicate-free manifest, over every run of operations, refused and
      interrupted ones included: each record keeps at most one entry per category and
      key, and the saved manifest loads to the records in memory, save for hashes a
      refresh had filled in when it raised; in runs without such a refresh it always
      loads to them. */
  lemma {:induction false} RunKeepsGood(env: Env, states: seq<State>, ops: seq<Op>, k: nat)
    requires Run(env, states, ops) && Tidy(env, states, ops) && Fresh(states[0]) && k < |states|
    ensures Good(states[k])
    ensures NoneCutOff(states, ops) ==> InStep(states[k].installed, states[k].manifest)
  {
    if k == 0 {
      FreshIsGood(states[0]);
    } else {
      RunKeepsGood(env, states, ops, k - 1);
      RunStep(env, states, ops, k - 1);
      StepKeepsGood(env, states[k - 1], ops[k - 1], states[k]);
    }
  }

  // ----- other devices -----

  /** The device directory an operation works on, if it changes anything. */
  function Target(env: Env, s: State, op: Op): Option<string> {
    if op.LoadLocal? || op.Refresh? then None
    else
      match PlanOf(env, s, op)
      case Refuse => None
      case Crash(name) => Some(name)
      case Stray => None
      case Finish(name, _, _) => Some(name)
  }

  ghost predicate SameDirectory(s: State, t: State, n: string) { DirOf(s.dirs, n) == DirOf(t.dirs, n) }

  function DirOf(dirs: map<string, Folder>, n: string): Option<Folder> { if n in dirs then Some(dirs[n]) else None }

  /** What an operation on other devices makes of a record: a load normalises it, a
      refresh also fills in a missing hash with that of the bundle the device is linked
      to, and nothing else touches it. */
  function Moved(dirs: map<string, Folder>, op: Op, n: string, r: Record): Record {
    match op
    case LoadLocal => Normalise(r)
    case Refresh(remotes) => Filled(dirs, Index(remotes), n, Normalise(r))
    case _ => r
  }

  lemma CarriedKeepsOthers(s: State, plan: Plan, t: State, n: string)
    requires Carried(s, plan, t) && !plan.Stray? && (!plan.Refuse? ==> plan.name != n)
    ensures SameDirectory(s, t, n) && Get(t.installed, n) == Get(s.installed, n)
  {
    if plan.Crash? {
      assert n in t.dirs <==> n in t.dirs - {plan.name};
      assert n in s.dirs <==> n in s.dirs - {plan.name};
    }
  }

  /** An operation touches no other device's directory.  Its record is the one before
      unless the manifest is loaded; then it is the saved one, with the linked bundle's
      hash where it had none if the operation is a refresh (one that raises may not have
      come to it). */
  lemma StepKeepsOthers(env: Env, s: State, op: Op, t: State, n: string)
    requires Good(s) && Step(env, s, op, t) && !Strays(env, s, op) && Target(env, s, op) != Some(n)
    ensures SameDirectory(s, t, n) && (n in s.installed.at <==> n in t.installed.at)
    ensures
      n in s.installed.at ==>
        n in Load(s.manifest).at &&
        var (saved, now) := (Load(s.manifest).at[n], t.installed.at[n]);
        match op
        case LoadLocal => now == saved
        case Refresh(remotes) => now == Filled(s.dirs, Index(remotes), n, saved) || (CutOff(s) && now == saved)
        case _ => now == s.installed.at[n]
  {
    match op
    case LoadLocal =>
    case Refresh(remotes) => RefreshKeepsOthers(s, remotes, t, n);
    case _ => CarriedKeepsOthers(s, PlanOf(env, s, op), t, n);
  }

  lemma RefreshKeepsOthers(s: State, remotes: seq<RemoteBundle>, t: State, n: string)
    requires Good(s) && Refreshes(s, remotes, t)
    ensures t.dirs == s.dirs && t.installed.at.Keys == Load(s.manifest).at.Keys
    ensures
      n in Load(s.manifest).at ==>
        var (saved, now) := (Load(s.manifest).at[n], t.installed.at[n]);
        now == Filled(s.dirs, Index(remotes), n, saved) || (CutOff(s) && now == saved)
  {}

  lemma StepMovesRecord(env: Env, s: State, op: Op, t: State, n: string)
    requires Good(s) && Step(env, s, op, t) && !Strays(env, s, op) && Target(env, s, op) != Some(n)
    requires InStep(s.installed, s.manifest) && !IsCutOff(s, op) && n in s.installed.at
    ensures n in t.installed.at && t.installed.at[n] == Moved(s.dirs, op, n, s.installed.at[n])
  {
    StepKeepsOthers(env, s, op, t, n);
  }

  /** No operation of the run works on the device. */
  ghost predicate LeavesAlone(env: Env, states: seq<State>, ops: seq<Op>, n: string)
    requires |states| == |ops| + 1
  {
    forall i :: 0 <= i < |ops| ==> Target(env, states[i], ops[i]) != Some(n)
  }

  /** A device no operation of a run works on keeps its directory and whether it has a
      record. */
  lemma {:induction false} RunKeepsDirectories(env: Env, states: seq<State>, ops: seq<Op>, k: nat, n: string)
    requires Run(env, states, ops) && Tidy(env, states, ops) && Fresh(states[0]) && k < |states|
    requires LeavesAlone(env, states, ops, n)
    ensures SameDirectory(states[0], states[k], n)
    ensures n in states[0].installed.at <==> n in states[k].installed.at
  {
    if k > 0 {
      RunKeepsDirectories(env, states, ops, k - 1, n);
      RunKeepsGood(env, states, ops, k - 1);
      RunStep(env, states, ops, k - 1);
      StepKeepsOthers(env, states[k - 1], ops[k - 1], states[k], n);
    }
  }

  /** The record after the operations of a run, from the record and the directories at
      its start. */
  function RecordAfter(dirs: map<string, Folder>, ops: seq<Op>, n: string, r: Record): Record {
    if ops == [] then r
    else Moved(dirs, ops[|ops| - 1], n, RecordAfter(dirs, ops[..|ops| - 1], n, r))
  }

  lemma MovedIsLocal(a: map<string, Folder>, b: map<string, Folder>, op: Op, n: string, r: Record)
    requires DirOf(a, n) == DirOf(b, n)
    ensures Moved(a, op, n, r) == Moved(b, op, n, r)
  {
    assert n in a <==> n in b;
    assert n in a ==> a[n] == b[n];
  }

  lemma RunMovesRecord(env: Env, states: seq<State>, ops: seq<Op>, k: nat, n: string)
    requires Run(env, states, ops) && Tidy(env, states, ops) && NoneCutOff(states, ops) && Fresh(states[0])
    requires k < |ops| && LeavesAlone(env, states, ops, n) && n in states[k].installed.at
    ensures n in states[k + 1].installed.at
    ensures states[k + 1].installed.at[n] == Moved(states[0].dirs, ops[k], n, states[k].installed.at[n])
  {
    RunKeepsDirectories(env, states, ops, k, n);
    RunKeepsGood(env, states, ops, k);
    RunStep(env, states, ops, k);
    StepMovesRecord(env, states[k], ops[k], states[k + 1], n);
    MovedIsLocal(states[0].dirs, states[k].dirs, ops[k], n, states[k].installed.at[n]);
  }

  /** In a run none of whose refreshes raises, its record at every point follows from the
      record at the start, its own directory and the operations alone. */
  lemma {:induction false} RunFollowsRecord(env: Env, states: seq<State>, ops: seq<Op>, k: nat, n: string)
    requires Run(env, states, ops) && Tidy(env, states, ops) && NoneCutOff(states, ops) && Fresh(states[0])
    requires k < |states| && LeavesAlone(env, states, ops, n) && n in states[0].installed.at
    ensures n in states[k].installed.at
    ensures states[k].installed.at[n] == RecordAfter(states[0].dirs, ops[..k], n, states[0].installed.at[n])
  {
    if k > 0 {
      RunFollowsRecord(env, states, ops, k - 1, n);
      RunMovesRecord(env, states, ops, k - 1, n);
      assert ops[..k][..k - 1] == ops[..k - 1];
    }
  }

  /** The hash of the bundle that a refresh of the run links the device to. */
  ghost predicate Offered(dirs: map<string, Folder>, ops: seq<Op>, n: string, sha256: Option<string>) {
    exists i :: 0 <= i < |ops| && OffersHash(dirs, ops[i], n, sha256)
  }

  predicate OffersHash(dirs: map<string, Folder>, op: Op, n: string, sha256: Option<string>) {
    op.Refresh? && n in dirs && var rb := RemoteFor(Index(op.remotes), dirs[n]); rb.Some? && rb.value.sha256 == sha256
  }

  lemma MovedKeeps(dirs: map<string, Folder>, op: Op, n: string, r: Record)
    ensures
      var after := Moved(dirs, op, n, r);
      && after.updatedAt == r.updatedAt && Normalise(after).packages == Normalise(r).packages
      && (after.sha256 == r.sha256 || after.sha256 == Normalise(r).sha256 || OffersHash(dirs, op, n, after.sha256))
      && (r.sha256.Some? && r.sha256 != Some("") ==> after.sha256 == r.sha256)
  {
    NormalisedIsNormal(r);
    var (x, after) := (Normalise(r), Moved(dirs, op, n, r));
    if op.Refresh? {
      assert after.packages == x.packages;
      assert Normalise(after).packages == Normalise(x).packages;
    }
  }

  /** Over a run such a record keeps its timestamp and its packages, and its hash if it
      has one that is not empty; a hash it gets is that of the bundle its device is
      linked to, offered by a refresh of the run. */
  lemma {:induction false} RecordAfterKeeps(dirs: map<string, Folder>, ops: seq<Op>, n: string, r: Record)
    ensures
      var after := RecordAfter(dirs, ops, n, r);
      && after.updatedAt == r.updatedAt && Normalise(after).packages == Normalise(r).packages
      && (after.sha256 == r.sha256 || after.sha256.None? || Offered(dirs, ops, n, after.sha256))
      && (r.sha256.Some? && r.sha256 != Some("") ==> after.sha256 == r.sha256)
  {
    if ops != [] {
      var (front, last) := (ops[..|ops| - 1], ops[|ops| - 1]);
      RecordAfterKeeps(dirs, front, n, r);
      var mid := RecordAfter(dirs, front, n, r);
      MovedKeeps(dirs, last, n, mid);
      if Offered(dirs, front, n, mid.sha256) {
        var i :| 0 <= i < |front| && OffersHash(dirs, front[i], n, mid.sha256);
        assert OffersHash(dirs, ops[i], n, mid.sha256);
      }
    }
  }

  /** The record has the timestamp, the packages and, if there is one, the hash of the
      one at the start; a hash it got since was offered by a refresh. */
  ghost predicate Descends(dirs: map<string, Folder>, ops: seq<Op>, n: string, start: Record, r: Record) {
    && r.updatedAt == start.updatedAt && r.packages == start.packages
    && (r.sha256 == start.sha256 || (start.sha256.None? && Offered(dirs, ops, n, r.sha256)))
  }

  lemma DescendsOn(dirs: map<string, Folder>, ops: seq<Op>, op: Op, n: string, start: Record, r: Record)
    requires Descends(dirs, ops, n, start, r)
    ensures Descends(dirs, ops + [op], n, start, r)
  {
    if Offered(dirs, ops, n, r.sha256) {
      var i :| 0 <= i < |ops| && OffersHash(dirs, ops[i], n, r.sha256);
      assert OffersHash(dirs, (ops + [op])[i], n, r.sha256);
    }
  }

  lemma DescendsNormalised(dirs: map<string, Folder>, ops: seq<Op>, n: string, start: Record, r: Record)
    requires IsNormal(start) && Descends(dirs, ops, n, start, r)
    ensures Descends(dirs, ops, n, start, Normalise(r))
  {
    assert Normalise(r).packages == Normalise(start).packages;
    assert start.sha256 == Normalise(start).sha256;
  }

  lemma DescendsFilled(dirs: map<string, Folder>, ops: seq<Op>, remotes: seq<RemoteBundle>, n: string, start: Record,
                       r: Record)
    requires Descends(dirs, ops, n, start, r)
    ensures Descends(dirs, ops + [Refresh(remotes)], n, start, Filled(dirs, Index(remotes), n, r))
  {
    DescendsOn(dirs, ops, Refresh(remotes), n, start, r);
    var filled := Filled(dirs, Index(remotes), n, r);
    if filled != r {
      assert OffersHash(dirs, (ops + [Refresh(remotes)])[|ops|], n, filled.sha256);
    }
  }

  lemma FilledIsLocal(a: map<string, Folder>, b: map<string, Folder>, index: map<Identity, RemoteBundle>, n: string,
                      r: Record)
    requires DirOf(a, n) == DirOf(b, n)
    ensures Filled(a, index, n, r) == Filled(b, index, n, r)
  {
    assert n in a <==> n in b;
    assert n in a ==> a[n] == b[n];
  }

  /** A manifest that is written is in step. */
  lemma StepSaves(env: Env, s: State, op: Op, t: State)
    requires Good(s) && Step(env, s, op, t) && !Strays(env, s, op)
    ensures t.manifest == s.manifest || InStep(t.installed, t.manifest)
  {
    match op
    case LoadLocal =>
    case Refresh(remotes) =>
      if !CutOff(s) {
        RefreshKeepsGood(s, remotes, t);
      }
    case _ => CarriedSaves(s, PlanOf(env, s, op), t);
  }

  lemma CarriedSaves(s: State, plan: Plan, t: State)
    requires Carried(s, plan, t) && !plan.Stray?
    ensures t.manifest == s.manifest || InStep(t.installed, t.manifest)
  {
    if plan.Finish? && !plan.change.Leave? {
      SavedInStep(t.installed);
    }
  }

  /** The saved record stays as it is, or becomes what a load makes of the one in memory. */
  lemma StepSavesOthers(env: Env, s: State, op: Op, t: State, n: string)
    requires Good(s) && Step(env, s, op, t) && !Strays(env, s, op) && Target(env, s, op) != Some(n)
    requires n in s.installed.at
    ensures n in t.installed.at && n in Load(s.manifest).at && n in Load(t.manifest).at
    ensures
      var now := Load(t.manifest).at[n];
      now == Load(s.manifest).at[n] || now == Normalise(t.installed.at[n])
  {
    StepKeepsOthers(env, s, op, t, n);
    StepSaves(env, s, op, t);
  }

  /** The record in memory and the saved one descend from one that is normal. */
  ghost predicate BothDescend(dirs: map<string, Folder>, ops: seq<Op>, n: string, start: Record, s: State) {
    && IsNormal(start) && n in s.installed.at && n in Load(s.manifest).at
    && Descends(dirs, ops, n, start, s.installed.at[n]) && Descends(dirs, ops, n, start, Load(s.manifest).at[n])
  }

  lemma StepDescends(env: Env, s: State, op: Op, t: State, n: string, dirs: map<string, Folder>, ops: seq<Op>,
                     start: Record)
    requires Good(s) && Step(env, s, op, t) && !Strays(env, s, op) && Target(env, s, op) != Some(n)
    requires DirOf(dirs, n) == DirOf(s.dirs, n) && BothDescend(dirs, ops, n, start, s)
    ensures BothDescend(dirs, ops + [op], n, start, t)
  {
    StepKeepsOthers(env, s, op, t, n);
    StepSavesOthers(env, s, op, t, n);
    var (was, saved) := (s.installed.at[n], Load(s.manifest).at[n]);
    DescendsOn(dirs, ops, op, n, start, was);
    DescendsOn(dirs, ops, op, n, start, saved);
    if op.Refresh? {
      DescendsFilled(dirs, ops, op.remotes, n, start, saved);
      FilledIsLocal(dirs, s.dirs, Index(op.remotes), n, saved);
    }
    DescendsNormalised(dirs, ops + [op], n, start, t.installed.at[n]);
  }

  lemma PrefixGrows(ops: seq<Op>, k: nat)
    requires k < |ops|
    ensures ops[..k + 1] == ops[..k] + [ops[k]]
  {}

  /** What holds at a point of a run for a device no operation works on. */
  lemma RunPoint(env: Env, states: seq<State>, ops: seq<Op>, k: nat, n: string)
    requires Run(env, states, ops) && Tidy(env, states, ops) && Fresh(states[0])
    requires k < |ops| && LeavesAlone(env, states, ops, n)
    ensures Good(states[k]) && DirOf(states[0].dirs, n) == DirOf(states[k].dirs, n)
    ensures Step(env, states[k], ops[k], states[k + 1]) && !Strays(env, states[k], ops[k])
    ensures Target(env, states[k], ops[k]) != Some(n)
  {
    RunKeepsDirectories(env, states, ops, k, n);
    RunKeepsGood(env, states, ops, k);
    RunStep(env, states, ops, k);
  }

  /** Over every run, refreshes that raise included, the record of a device no operation
      works on keeps its timestamp, its packages and its hash if it has one; a hash it
      gets is that of the bundle its device is linked to, offered by a refresh of the
      run.  So does the saved record. */
  lemma {:induction false} RunKeepsOthers(env: Env, states: seq<State>, ops: seq<Op>, k: nat, n: string)
    requires Run(env, states, ops) && Tidy(env, states, ops) && Fresh(states[0])
    requires k < |states| && LeavesAlone(env, states, ops, n) && n in states[0].installed.at
    ensures BothDescend(states[0].dirs, ops[..k], n, states[0].installed.at[n], states[k])
  {
    if k == 0 {
      LoadedIsNormal(states[0].manifest);
    } else {
      RunKeepsOthers(env, states, ops, k - 1, n);
      RunPoint(env, states, ops, k - 1, n);
      PrefixGrows(ops, k - 1);
      StepDescends(env, states[k - 1], ops[k - 1], states[k], n, states[0].dirs, ops[..k - 1], states[0].installed.at[n]);
    }
  }

  // ----- fresh installs -----

  lemma {:induction false} FirstFreeIsFree(dirs: map<string, Folder>, base: string, draws: seq<string>)
    ensures var n := FirstFree(dirs, base, draws); n.Some? ==> n.value !in dirs && base + "_" <= n.value
    ensures
      FirstFree(dirs, base, draws).None? <==> forall i :: 0 <= i < |draws| ==> base + "_" + draws[i] in dirs
  {
    if draws != [] {
      FirstFreeIsFree(dirs, base, draws[1..]);
      assert forall i :: 0 < i < |draws| ==> draws[i] == draws[1..][i - 1];
      if FirstFree(dirs, base, draws).None? {
        forall i | 0 <= i < |draws|
          ensures base + "_" + draws[i] in dirs
        {
          if i > 0 {
            assert base + "_" + draws[1..][i - 1] in dirs;
          }
        }
      } else if base + "_" + draws[0] in dirs {
        var i :| 0 <= i < |draws[1..]| && base + "_" + draws[1..][i] !in dirs;
        assert draws[i + 1] == draws[1..][i];
      }
    }
  }

  /** The i-th draw gives the first free name. */
  predicate FirstDraw(dirs: map<string, Folder>, base: string, draws: seq<string>, i: nat)
    requires i < |draws|
  {
    base + "_" + draws[i] !in dirs && forall j :: 0 <= j < i ==> base + "_" + draws[j] in dirs
  }

  lemma {:induction false} FirstFreeIsFirst(dirs: map<string, Folder>, base: string, draws: seq<string>, i: nat)
    requires i < |draws| && FirstDraw(dirs, base, draws, i)
    ensures FirstFree(dirs, base, draws) == Some(base + "_" + draws[i])
  {
    if i > 0 {
      assert base + "_" + draws[0] in dirs;
      assert forall j :: 0 <= j < i ==> draws[1..][j] == draws[j + 1];
      FirstFreeIsFirst(dirs, base, draws[1..], i - 1);
    }
  }

  /** A fresh install takes the bundle's own name if no directory has it, else the first
      free one drawn, and never a name that is taken. */
  lemma AllocatedIsFree(dirs: map<string, Folder>, base: string, draws: seq<string>)
    ensures
      var n := Allocated(dirs, base, draws);
      && (n.Some? ==> n.value !in dirs)
      && (base !in dirs <==> n == Some(base))
      && forall i: nat :: i < |draws| && base in dirs && FirstDraw(dirs, base, draws, i) ==> n == Some(base + "_" + draws[i])
  {
    FirstFreeIsFree(dirs, base, draws);
    forall i: nat | i < |draws| && base in dirs && FirstDraw(dirs, base, draws, i)
      ensures Allocated(dirs, base, draws) == Some(base + "_" + draws[i])
    {
      FirstFreeIsFirst(dirs, base, draws, i);
    }
  }

  lemma {:induction false} WithoutAbsent(keys: seq<string>, k: string)
    requires k !in keys
    ensures Without(keys, k) == keys
  {
    if keys != [] {
      WithoutAbsent(keys[..|keys| - 1], k);
    }
  }

  lemma PopAfterSet(d: Dict<Record>, k: string, r: Record)
    requires ValidDict(d) && k !in d.at
    ensures Pop(Set(d, k, r), k) == d
  {
    WithoutAbsent(d.keys, k);
    assert (d.keys + [k])[..|d.keys|] == d.keys;
    assert d.at[k := r] - {k} == d.at;
  }

  lemma DirectoryUndone(before: map<string, Folder>, after: map<string, Folder>, name: string)
    requires after - {name} == before - {name} && name !in before
    ensures after - {name} == before
  {
    assert before - {name} == before;
  }

  /** A fresh install puts one directory and one record that were not there. */
  lemma FreshInstallAdds(env: Env, s: State, op: Op, job: Job, mid: State)
    requires Good(s) && Completes(env, s, op, job, mid) && op.dirName.None? && job.name !in s.installed.at
    ensures mid.dirs - {job.name} == s.dirs && mid.remotes == s.remotes && mid.index == s.index
    ensures Pop(mid.installed, job.name) == s.installed
  {
    InstallOutcome(env, s, op, job, mid);
    AllocatedIsFree(s.dirs, job.rb.name, op.draws);
    DirectoryUndone(s.dirs, mid.dirs, job.name);
    PopAfterSet(s.installed, job.name, Record(Some(job.rb.updatedAt), job.rb.sha256, job.stashed));
  }

  lemma DeletePlan(env: Env, s: State, name: string, t: State)
    requires !Refused(env, name) && Step(env, s, Delete(name), t)
    ensures ValidDict(Pop(s.installed, name))
    ensures
      t == s.(dirs := s.dirs - {name}, installed := Pop(s.installed, name),
              manifest := Parsed(Save(Pop(s.installed, name))))
  {
    assert PlanOf(env, s, Delete(name)) == Finish(name, None, Drop);
  }

  /** Deleting a freshly installed device, recorded nowhere before, leaves the
      directories and the records exactly as they were, and writes their manifest. */
  lemma DeleteUndoesInstall(env: Env, s: State, op: Op, job: Job, mid: State, t: State)
    requires Good(s) && Completes(env, s, op, job, mid) && op.dirName.None? && job.name !in s.installed.at
    requires Step(env, mid, Delete(job.name), t)
    ensures t == s.(manifest := Parsed(Save(s.installed)))
  {
    FreshInstallAdds(env, s, op, job, mid);
    DeletePlan(env, mid, job.name, t);
  }
}
