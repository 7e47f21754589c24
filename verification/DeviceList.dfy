/** The rows of the device list: `list_devices` (launcher/operations.py) with the
    freshness rules of launcher/device_state.py. */
module DeviceList {
  import opened Options
  import opened OrderedDict
  import opened LocalManifest
  import opened SafeNames
  import opened Folders
  import opened DeviceStore
  import opened DeviceInputs
  import opened DeviceInstall
  import opened StableSort
  import Json
  import CerfUserJson

  datatype Row = Row(
    name: string, key: string, remote: Option<RemoteBundle>, isLocal: bool, installedSha256: Option<string>,
    cerfJsonPending: bool)

  datatype Label = UserDevice | Update | Config | Installed | Available

  predicate HashesDiffer(a: Option<string>, b: Option<string>) { a.Some? && b.Some? && Lower(a.value) != Lower(b.value) }

  predicate HasUpdate(d: Row) { d.isLocal && d.remote.Some? && HashesDiffer(d.installedSha256, d.remote.value.sha256) }

  function StateLabel(d: Row): Label {
    if d.isLocal && d.remote.None? then UserDevice
    else if HasUpdate(d) then Update
    else if d.cerfJsonPending then Config
    else if d.isLocal then Installed
    else Available
  }

  /** `cerf_json_differs`. */
  predicate ConfigDiffers(folder: Folder, obj: Json.Object) {
    FileAt(folder, CERF) != CerfUserJson.Holds(Json.Obj(obj))
  }

  predicate Listed(s: State, name: string) { name in s.dirs && SafeName(name) }

  /** The row of a device directory. */
  function LocalRow(s: State, name: string): Row
    requires name in s.dirs
  {
    var rb := RemoteFor(s.index, s.dirs[name]);
    var sha := if name in s.installed.at then s.installed.at[name].sha256 else None;
    var d := Row(name, name, rb, true, sha, false);
    d.(cerfJsonPending :=
         !HasUpdate(d) && rb.Some? && rb.value.cerfJson.Some? && ConfigDiffers(s.dirs[name], rb.value.cerfJson.value))
  }

  function KeyOf(id: Identity): string { id.0 + "::" + id.1 }

  /** The row of a bundle that is not installed. */
  function AvailableRow(rb: RemoteBundle): Row {
    Row(rb.name, KeyOf(IdentityOf(rb)), Some(rb), false, None, false)
  }

  /** The identities that installed rows are linked to. */
  function Claimed(s: State, listing: seq<string>): set<Identity> {
    set n | n in listing && Listed(s, n) && RemoteFor(s.index, s.dirs[n]).Some? ::
      IdentityOf(RemoteFor(s.index, s.dirs[n]).value)
  }

  function LocalRows(s: State, listing: seq<string>): Dict<Row> {
    if listing == [] then Empty()
    else
      var (front, name) := (LocalRows(s, listing[..|listing| - 1]), listing[|listing| - 1]);
      if Listed(s, name) then Set(front, name, LocalRow(s, name)) else front
  }

  /** The rows after the loop over the remote bundles. */
  function AddAvailable(rows: Dict<Row>, claimed: set<Identity>, remotes: seq<RemoteBundle>): Dict<Row> {
    if remotes == [] then rows
    else
      var (front, rb) := (AddAvailable(rows, claimed, remotes[..|remotes| - 1]), remotes[|remotes| - 1]);
      if IdentityOf(rb) in claimed then front else Set(front, KeyOf(IdentityOf(rb)), AvailableRow(rb))
  }

  function Rows(s: State, listing: seq<string>): Dict<Row> {
    AddAvailable(LocalRows(s, listing), Claimed(s, listing), s.remotes)
  }

  function Values(rows: Dict<Row>): seq<Row>
    requires forall k :: k in rows.keys ==> k in rows.at
  {
    seq(|rows.keys|, i requires 0 <= i < |rows.keys| => rows.at[rows.keys[i]])
  }

  function ByRowName(): (Row, Row) -> bool { (a: Row, b: Row) => ByLowerName()(a.name, b.name) }

  // ----- keys -----

  /** Names of bundles and devices hold no colon. */
  lemma SafeNamesHoldNoColon(name: string)
    requires SafeName(name)
    ensures ':' !in name
  {}

  lemma LongerName(a: Identity, b: Identity)
    requires ':' !in b.1 && |a.1| < |b.1|
    ensures KeyOf(a) != KeyOf(b)
  {
    var (x, y) := (KeyOf(a), KeyOf(b));
    assert x[|x| - |a.1| - 1] == ':';
    assert y[|y| - |a.1| - 1] == b.1[|b.1| - |a.1| - 1];
  }

  /** Two bundles share a key only if they are the same. */
  lemma KeysTellIdentitiesApart(a: Identity, b: Identity)
    requires ':' !in a.1 && ':' !in b.1 && KeyOf(a) == KeyOf(b)
    ensures a == b
  {
    if |a.1| < |b.1| {
      LongerName(a, b);
    } else if |b.1| < |a.1| {
      LongerName(b, a);
    } else {
      var (x, n) := (KeyOf(a), |a.0|);
      assert x[..n] == a.0 && x[n + 2..] == a.1;
      assert KeyOf(b)[..n] == b.0 && KeyOf(b)[n + 2..] == b.1;
    }
  }

  /** No device directory has the key of an available bundle. */
  lemma LocalKeysDiffer(name: string, id: Identity)
    requires SafeName(name)
    ensures name != KeyOf(id)
  {
    SafeNamesHoldNoColon(name);
    assert KeyOf(id)[|id.0|] == ':';
    assert ':' in KeyOf(id);
  }

  // ----- the rows -----

  /** What `load_merged_manifest` guarantees and `_remote_index` is built from. */
  ghost predicate ProperRemotes(s: State) {
    s.index == Index(s.remotes) && forall rb :: rb in s.remotes ==> SafeName(rb.name)
  }

  /** The listing of the devices directory, in any order. */
  ghost predicate Lists(s: State, listing: seq<string>) {
    Distinct(listing) && forall n :: n in listing <==> n in s.dirs
  }

  lemma {:induction false} LocalRowsAre(s: State, listing: seq<string>)
    ensures
      var d := LocalRows(s, listing);
      && ValidDict(d) && (forall n :: n in d.at <==> n in listing && Listed(s, n))
      && forall n :: n in d.at ==> d.at[n] == LocalRow(s, n)
  {
    if listing != [] {
      LocalRowsAre(s, listing[..|listing| - 1]);
      assert forall n :: n in listing <==> n in listing[..|listing| - 1] || n == listing[|listing| - 1];
    }
  }

  lemma {:induction false} IndexIs(remotes: seq<RemoteBundle>, id: Identity)
    ensures id in Index(remotes) <==> exists rb :: rb in remotes && IdentityOf(rb) == id
    ensures id in Index(remotes) ==> IdentityOf(Index(remotes)[id]) == id && Index(remotes)[id] in remotes
  {
    if remotes != [] {
      IndexIs(remotes[..|remotes| - 1], id);
      var last := remotes[|remotes| - 1];
      assert forall rb :: rb in remotes <==> rb in remotes[..|remotes| - 1] || rb == last;
    }
  }

  lemma {:induction false} AvailableRowsAre(rows: Dict<Row>, claimed: set<Identity>, remotes: seq<RemoteBundle>, id: Identity)
    requires ValidDict(rows) && KeyOf(id) !in rows.at && ':' !in id.1
    requires forall rb :: rb in remotes ==> ':' !in rb.name
    ensures
      var d := AddAvailable(rows, claimed, remotes);
      && ValidDict(d)
      && (KeyOf(id) in d.at <==> id in Index(remotes) && id !in claimed)
      && (KeyOf(id) in d.at ==> d.at[KeyOf(id)] == AvailableRow(Index(remotes)[id]))
  {
    if remotes != [] {
      var (front, rb) := (remotes[..|remotes| - 1], remotes[|remotes| - 1]);
      AvailableRowsAre(rows, claimed, front, id);
      if IdentityOf(rb) != id && KeyOf(IdentityOf(rb)) == KeyOf(id) {
        KeysTellIdentitiesApart(IdentityOf(rb), id);
      }
    }
  }

  /** A key of the result is a device directory or the key of an unclaimed bundle, and
      device rows are never replaced. */
  lemma {:induction false} OtherKeysStay(rows: Dict<Row>, claimed: set<Identity>, remotes: seq<RemoteBundle>, key: string)
    requires ValidDict(rows)
    requires forall rb :: rb in remotes ==> KeyOf(IdentityOf(rb)) != key
    ensures
      var d := AddAvailable(rows, claimed, remotes);
      (key in d.at <==> key in rows.at) && (key in rows.at ==> d.at[key] == rows.at[key])
  {
    if remotes != [] {
      OtherKeysStay(rows, claimed, remotes[..|remotes| - 1], key);
    }
  }

  lemma RowsOfDevices(s: State, listing: seq<string>, name: string)
    requires ProperRemotes(s) && Lists(s, listing) && SafeName(name)
    ensures
      var d := Rows(s, listing);
      (name in d.at <==> name in s.dirs) && (name in s.dirs ==> d.at[name] == LocalRow(s, name))
  {
    LocalRowsAre(s, listing);
    forall rb | rb in s.remotes
      ensures KeyOf(IdentityOf(rb)) != name
    {
      LocalKeysDiffer(name, IdentityOf(rb));
    }
    OtherKeysStay(LocalRows(s, listing), Claimed(s, listing), s.remotes, name);
  }

  /** A device directory is linked to the bundle. */
  ghost predicate Linked(s: State, id: Identity) {
    exists n :: Listed(s, n) && LinksTo(s, n, id)
  }

  predicate LinksTo(s: State, n: string, id: Identity)
    requires n in s.dirs
  {
    LinkOf(ObjectAt(s.dirs[n], USER)) == Some(id)
  }

  lemma ClaimedIsLinked(s: State, listing: seq<string>, id: Identity)
    requires ProperRemotes(s) && Lists(s, listing) && id in s.index
    ensures id in Claimed(s, listing) <==> Linked(s, id)
  {
    if id in Claimed(s, listing) {
      var n :| n in listing && Listed(s, n) && RemoteFor(s.index, s.dirs[n]).Some?
               && IdentityOf(RemoteFor(s.index, s.dirs[n]).value) == id;
      IndexIs(s.remotes, LinkOf(ObjectAt(s.dirs[n], USER)).value);
      assert LinksTo(s, n, id);
    }
    if Linked(s, id) {
      var n :| Listed(s, n) && LinksTo(s, n, id);
      IndexIs(s.remotes, id);
      assert n in listing && IdentityOf(RemoteFor(s.index, s.dirs[n]).value) == id;
    }
  }

  lemma RowsOfBundles(s: State, listing: seq<string>, id: Identity)
    requires ProperRemotes(s) && Lists(s, listing) && id in s.index
    ensures
      var d := Rows(s, listing);
      && (KeyOf(id) in d.at <==> !Linked(s, id))
      && (KeyOf(id) in d.at ==> d.at[KeyOf(id)] == AvailableRow(s.index[id]))
  {
    LocalRowsAre(s, listing);
    IndexIs(s.remotes, id);
    SafeNamesHoldNoColon(id.1);
    forall rb | rb in s.remotes
      ensures ':' !in rb.name
    {
      SafeNamesHoldNoColon(rb.name);
    }
    if KeyOf(id) in LocalRows(s, listing).at {
      LocalKeysDiffer(KeyOf(id), id);
    }
    AvailableRowsAre(LocalRows(s, listing), Claimed(s, listing), s.remotes, id);
    ClaimedIsLinked(s, listing, id);
  }

  ghost predicate Shows(d: Row, id: Identity) { d.remote.Some? && IdentityOf(d.remote.value) == id }

  lemma RowIsOne(s: State, listing: seq<string>, key: string)
    requires ProperRemotes(s) && Lists(s, listing) && key in Rows(s, listing).at
    ensures
      || (Listed(s, key) && Rows(s, listing).at[key] == LocalRow(s, key))
      || exists id :: id in s.index && key == KeyOf(id) && Rows(s, listing).at[key] == AvailableRow(s.index[id])
  {
    LocalRowsAre(s, listing);
    if exists rb :: rb in s.remotes && KeyOf(IdentityOf(rb)) == key {
      var rb :| rb in s.remotes && KeyOf(IdentityOf(rb)) == key;
      IndexIs(s.remotes, IdentityOf(rb));
      RowsOfBundles(s, listing, IdentityOf(rb));
    } else {
      OtherKeysStay(LocalRows(s, listing), Claimed(s, listing), s.remotes, key);
    }
  }

  /** Each remote identity is either linked by installed rows or shown in exactly one
      available row, never both. */
  lemma LinkedOrAvailable(s: State, listing: seq<string>, id: Identity)
    requires ProperRemotes(s) && Lists(s, listing) && id in s.index
    ensures
      var d := Rows(s, listing);
      && (Linked(s, id) <==> exists k :: k in d.at && d.at[k].isLocal && Shows(d.at[k], id))
      && (Linked(s, id) ==> forall k :: k in d.at && Shows(d.at[k], id) ==> d.at[k].isLocal)
      && (!Linked(s, id) ==>
            KeyOf(id) in d.at && forall k :: k in d.at && Shows(d.at[k], id) ==> k == KeyOf(id) && !d.at[k].isLocal)
  {
    var d := Rows(s, listing);
    RowsOfBundles(s, listing, id);
    forall k | k in d.at && Shows(d.at[k], id)
      ensures if d.at[k].isLocal then Listed(s, k) && LinksTo(s, k, id) else k == KeyOf(id)
    {
      RowIsOne(s, listing, k);
      if d.at[k].isLocal {
        IndexIs(s.remotes, LinkOf(ObjectAt(s.dirs[k], USER)).value);
      } else {
        var other :| other in s.index && k == KeyOf(other) && d.at[k] == AvailableRow(s.index[other]);
        IndexIs(s.remotes, other);
      }
    }
    if Linked(s, id) {
      var n :| Listed(s, n) && LinksTo(s, n, id);
      RowsOfDevices(s, listing, n);
      IndexIs(s.remotes, id);
      assert Shows(d.at[n], id);
    }
  }

  // ----- what a row says -----

  /** The device is linked to a bundle whose hash and the recorded one are both there and
      differ in more than letter case. */
  ghost predicate UpdateWaits(s: State, n: string)
    requires n in s.dirs
  {
    exists rb, a, b ::
      && LinkedTo(s.index, s.dirs[n], rb) && rb.sha256 == Some(b)
      && n in s.installed.at && s.installed.at[n].sha256 == Some(a) && Lower(a) != Lower(b)
  }

  /** The device is linked to a bundle with a cerf.json that its own does not hold. */
  ghost predicate ConfigWaits(s: State, n: string)
    requires n in s.dirs
  {
    exists rb, obj ::
      && LinkedTo(s.index, s.dirs[n], rb) && rb.cerfJson == Some(obj)
      && At(s.dirs[n], "cerf.json") != Some(JsonFile(Json.Obj(obj)))
  }

  lemma LinkedToOne(s: State, n: string)
    requires n in s.dirs
    ensures forall rb :: LinkedTo(s.index, s.dirs[n], rb) <==> RemoteFor(s.index, s.dirs[n]) == Some(rb)
  {
    forall rb
      ensures LinkedTo(s.index, s.dirs[n], rb) <==> RemoteFor(s.index, s.dirs[n]) == Some(rb)
    {
      RemoteIs(s.index, s.dirs[n], rb);
    }
  }

  /** The exact condition of every mark and label of a device's row. */
  lemma RowSays(s: State, n: string)
    requires Listed(s, n)
    ensures
      var (d, update, config) := (LocalRow(s, n), UpdateWaits(s, n), ConfigWaits(s, n));
      && (d.cerfJsonPending <==> !update && config)
      && (StateLabel(d) == UserDevice <==> forall rb :: !LinkedTo(s.index, s.dirs[n], rb))
      && (StateLabel(d) == Update <==> update)
      && (StateLabel(d) == Config <==> !update && config)
      && (StateLabel(d) == Installed <==> (exists rb :: LinkedTo(s.index, s.dirs[n], rb)) && !update && !config)
  {
    LinkedToOne(s, n);
  }

  /** The row of every listed device says so; that of a bundle says it is available. */
  lemma ListedRowsSay(s: State, listing: seq<string>, key: string)
    requires ProperRemotes(s) && Lists(s, listing) && key in Rows(s, listing).at
    ensures
      var d := Rows(s, listing).at[key];
      && d.isLocal == Listed(s, key) && d.key == key
      && (!d.isLocal ==>
            && StateLabel(d) == Available && !d.cerfJsonPending
            && d.remote.Some? && d.remote.value in s.remotes && d.name == d.remote.value.name)
      && (d.isLocal ==>
            && d.name == key && (forall rb :: d.remote == Some(rb) <==> LinkedTo(s.index, s.dirs[key], rb))
            && d.installedSha256 == (if key in s.installed.at then s.installed.at[key].sha256 else None)
            && (d.cerfJsonPending <==> !UpdateWaits(s, key) && ConfigWaits(s, key))
            && (StateLabel(d) == Update <==> UpdateWaits(s, key)))
  {
    RowIsOne(s, listing, key);
    if Listed(s, key) {
      RowsOfDevices(s, listing, key);
      RowSays(s, key);
      LinkedToOne(s, key);
    } else {
      var id :| id in s.index && key == KeyOf(id) && Rows(s, listing).at[key] == AvailableRow(s.index[id]);
      IndexIs(s.remotes, id);
    }
  }

  // ----- no row is lost -----

  function NotIn(claimed: set<Identity>): RemoteBundle -> bool { (rb: RemoteBundle) => IdentityOf(rb) !in claimed }

  ghost predicate DistinctIdentities(remotes: seq<RemoteBundle>) {
    forall i, j :: 0 <= i < j < |remotes| ==> IdentityOf(remotes[i]) != IdentityOf(remotes[j])
  }

  lemma DistinctAppend(remotes: seq<RemoteBundle>, rb: RemoteBundle)
    ensures
      DistinctIdentities(remotes + [rb])
      <==> DistinctIdentities(remotes) && forall x :: x in remotes ==> IdentityOf(x) != IdentityOf(rb)
  {
    var all := remotes + [rb];
    if DistinctIdentities(all) {
      forall i, j | 0 <= i < j < |remotes|
        ensures IdentityOf(remotes[i]) != IdentityOf(remotes[j])
      {
        assert all[i] == remotes[i] && all[j] == remotes[j];
      }
      forall x | x in remotes
        ensures IdentityOf(x) != IdentityOf(rb)
      {
        var i :| 0 <= i < |remotes| && remotes[i] == x;
        assert all[i] == x && all[|remotes|] == rb;
      }
    }
  }

  /** The available rows are as many as the unclaimed bundles exactly when no two of
      those have one identity; otherwise a later one takes the row of an earlier. */
  lemma {:induction false} NoRowIsLost(rows: Dict<Row>, claimed: set<Identity>, remotes: seq<RemoteBundle>)
    requires ValidDict(rows) && forall rb :: rb in remotes ==> SafeName(rb.name) && KeyOf(IdentityOf(rb)) !in rows.at
    ensures
      var (d, shown) := (AddAvailable(rows, claimed, remotes), Filter(NotIn(claimed), remotes));
      && |d.keys| <= |rows.keys| + |shown|
      && (|d.keys| == |rows.keys| + |shown| <==> DistinctIdentities(shown))
  {
    if remotes != [] {
      var (front, rb) := (remotes[..|remotes| - 1], remotes[|remotes| - 1]);
      NoRowIsLost(rows, claimed, front);
      assert remotes == front + [rb];
      FilterAppend(NotIn(claimed), front, [rb]);
      assert [rb][1..] == [];
      if IdentityOf(rb) !in claimed {
        var shown := Filter(NotIn(claimed), front);
        DistinctAppend(shown, rb);
        RowIsNew(rows, claimed, front, rb);
        assert Filter(NotIn(claimed), remotes) == shown + [rb];
        if KeyOf(IdentityOf(rb)) in AddAvailable(rows, claimed, front).at {
          assert !DistinctIdentities(shown + [rb]);
        } else {
          assert DistinctIdentities(shown + [rb]) <==> DistinctIdentities(shown);
        }
      } else {
        assert Filter(NotIn(claimed), remotes) == Filter(NotIn(claimed), front);
      }
    }
  }

  lemma RowIsNew(rows: Dict<Row>, claimed: set<Identity>, remotes: seq<RemoteBundle>, rb: RemoteBundle)
    requires ValidDict(rows) && IdentityOf(rb) !in claimed && SafeName(rb.name) && KeyOf(IdentityOf(rb)) !in rows.at
    requires forall x :: x in remotes ==> SafeName(x.name)
    ensures
      KeyOf(IdentityOf(rb)) in AddAvailable(rows, claimed, remotes).at
      <==> exists x :: x in Filter(NotIn(claimed), remotes) && IdentityOf(x) == IdentityOf(rb)
  {
    SafeNamesHoldNoColon(rb.name);
    forall x | x in remotes
      ensures ':' !in x.name
    {
      SafeNamesHoldNoColon(x.name);
    }
    AvailableRowsAre(rows, claimed, remotes, IdentityOf(rb));
    ShownIsIndexed(remotes, claimed, IdentityOf(rb));
  }

  lemma ShownIsIndexed(remotes: seq<RemoteBundle>, claimed: set<Identity>, id: Identity)
    requires id !in claimed
    ensures id in Index(remotes) <==> exists x :: x in Filter(NotIn(claimed), remotes) && IdentityOf(x) == id
  {
    IndexIs(remotes, id);
    FilterFacts(NotIn(claimed), remotes);
    if id in Index(remotes) {
      assert Index(remotes)[id] in Filter(NotIn(claimed), remotes);
    }
  }

  function IsListed(s: State): string -> bool { (n: string) => Listed(s, n) }

  lemma {:induction false} LocalRowOrder(s: State, listing: seq<string>)
    requires Distinct(listing)
    ensures LocalRows(s, listing).keys == Filter(IsListed(s), listing)
  {
    if listing != [] {
      var (front, name) := (listing[..|listing| - 1], listing[|listing| - 1]);
      LocalRowOrder(s, front);
      LocalRowsAre(s, front);
      assert listing == front + [name];
      FilterAppend(IsListed(s), front, [name]);
      assert [name][1..] == [];
      assert name !in front;
    }
  }

  /** Every listed directory and every bundle that no device is linked to has its own
      row, exactly when no two such bundles share repository and name. */
  lemma ListKeepsEveryRow(s: State, listing: seq<string>)
    requires ProperRemotes(s) && Lists(s, listing)
    ensures
      var shown := Filter(NotIn(Claimed(s, listing)), s.remotes);
      |Rows(s, listing).keys| == |Filter(IsListed(s), listing)| + |shown| <==> DistinctIdentities(shown)
  {
    LocalRowOrder(s, listing);
    LocalRowsAre(s, listing);
    forall rb | rb in s.remotes
      ensures KeyOf(IdentityOf(rb)) !in LocalRows(s, listing).at
    {
      if Listed(s, KeyOf(IdentityOf(rb))) {
        LocalKeysDiffer(KeyOf(IdentityOf(rb)), IdentityOf(rb));
      }
    }
    NoRowIsLost(LocalRows(s, listing), Claimed(s, listing), s.remotes);
  }

  /** Two bundles of one repository and name in a manifest share a row. */
  lemma SharedIdentityLosesRow(a: RemoteBundle, b: RemoteBundle, installed: Dict<Record>, m: Manifest)
    requires IdentityOf(a) == IdentityOf(b) && SafeName(a.name) && SafeName(b.name)
    ensures
      var s := State(map[], installed, m, [a, b], Index([a, b]));
      ProperRemotes(s) && Lists(s, []) && |Rows(s, []).keys| == 1 && Rows(s, []).at[KeyOf(IdentityOf(a))] == AvailableRow(b)
  {
    var s := State(map[], installed, m, [a, b], Index([a, b]));
    assert [a, b][..1] == [a] && [a][..0] == [];
    assert Claimed(s, []) == {};
    var key := KeyOf(IdentityOf(a));
    assert AddAvailable(Empty(), {}, [a]) == Set(Empty(), key, AvailableRow(a));
    assert AddAvailable(Empty(), {}, [a, b]) == Set(Set(Empty(), key, AvailableRow(a)), key, AvailableRow(b));
  }

  // ----- right after an install -----

  lemma ConfigReadsBack(folder: Folder, obj: Json.Object)
    requires At(folder, CERF) == Some(JsonFile(Json.Obj(obj)))
    ensures !ConfigDiffers(folder, obj)
  {}

  lemma UpToDate(s: State, name: string, rb: RemoteBundle)
    requires s.index == Index(s.remotes) && IdentityOf(rb) in s.index && s.index[IdentityOf(rb)] == rb
    requires name in s.dirs && name in s.installed.at && s.installed.at[name].sha256 == rb.sha256
    requires LinkOf(ObjectAt(s.dirs[name], USER)) == if rb.repoUrl != "" && rb.name != "" then Some(IdentityOf(rb)) else None
    requires rb.cerfJson.Some? ==> At(s.dirs[name], CERF) == Some(JsonFile(Json.Obj(rb.cerfJson.value)))
    ensures
      var d := LocalRow(s, name);
      && !HasUpdate(d) && !d.cerfJsonPending
      && StateLabel(d) == if rb.repoUrl != "" && rb.name != "" then Installed else UserDevice
  {
    if rb.cerfJson.Some? {
      ConfigReadsBack(s.dirs[name], rb.cerfJson.value);
    }
  }

  /** Right after an install the device's row reports neither a ROM update nor a
      configuration update; the list can be read unless the archive brought a cerf.json
      that cannot be decoded. */
  lemma InstalledIsUpToDate(env: Env, s: State, op: Op, job: Job, t: State)
    requires Completes(env, s, op, job, t) && s.index == Index(s.remotes)
    ensures job.name in t.dirs
    ensures
      var d := LocalRow(t, job.name);
      && !HasUpdate(d) && !d.cerfJsonPending
      && StateLabel(d) == if job.rb.repoUrl != "" && job.rb.name != "" then Installed else UserDevice
    ensures CannotBeRead(t.dirs[job.name]) <==> job.rb.cerfJson.None? && IsBinary(At(t.dirs[job.name], CERF))
  {
    InstallOutcome(env, s, op, job, t);
    BinaryRaises(t.dirs[job.name], CERF);
    BinaryRaises(t.dirs[job.name], USER);
    assert At(t.dirs[job.name], USER) == ExpectedIn(job, BackOf(job).value, USER);
    InstalledIsLinked(env, s, op, job, t);
    IndexIs(s.remotes, (op.url, op.remoteName));
    FileNamesDiffer();
    assert At(t.dirs[job.name], CERF) == ExpectedIn(job, BackOf(job).value, CERF);
    UpToDate(t, job.name, job.rb);
  }

  /** The files and the record of a manual install that has been prepared. */
  lemma PreparedFiles(env: Env, s: State, op: Op, t: State)
    requires op.PrepareManual? && Step(env, s, op, t) && PlanOf(env, s, op).Finish?
    ensures t.index == s.index && t.remotes == s.remotes
    ensures
      var (name, rb) := (PlanOf(env, s, op).name, op.bundle);
      && name in t.dirs && name in t.installed.at && t.installed.at[name].sha256 == rb.sha256
      && (LinkOf(ObjectAt(t.dirs[name], USER))
          == if rb.repoUrl != "" && rb.name != "" then Some(IdentityOf(rb)) else None)
      && (rb.cerfJson.Some? ==> At(t.dirs[name], CERF) == Some(JsonFile(Json.Obj(rb.cerfJson.value))))
  {
    ConfiguredFiles(FolderOf(s, PlanOf(env, s, op).name), op.bundle);
  }

  /** The link and the cerf.json of a configured directory. */
  lemma ConfiguredFiles(folder: Folder, rb: RemoteBundle)
    requires Configured(folder, rb).Some?
    ensures
      LinkOf(ObjectAt(Configured(folder, rb).value, USER))
      == if rb.repoUrl != "" && rb.name != "" then Some(IdentityOf(rb)) else None
    ensures
      rb.cerfJson.Some? ==> At(Configured(folder, rb).value, CERF) == Some(JsonFile(Json.Obj(rb.cerfJson.value)))
  {
    FileNamesDiffer();
    ConfiguredAt(folder, rb, CERF);
    ConfiguredAt(folder, rb, USER);
    LinkReadsBack(ObjectAt(folder, USER), rb.repoUrl, rb.name);
  }

  /** The same after a manual install has been prepared. */
  lemma PreparedIsUpToDate(env: Env, s: State, op: Op, t: State)
    requires op.PrepareManual? && Step(env, s, op, t) && PlanOf(env, s, op).Finish?
    requires s.index == Index(s.remotes) && IdentityOf(op.bundle) in s.index && s.index[IdentityOf(op.bundle)] == op.bundle
    ensures
      var name := PlanOf(env, s, op).name;
      name in t.dirs && !HasUpdate(LocalRow(t, name)) && !LocalRow(t, name).cerfJsonPending
  {
    PreparedFiles(env, s, op, t);
    UpToDate(t, PlanOf(env, s, op).name, op.bundle);
  }

  /** Applying the remote cerf.json changes no other entry and clears the pending mark. */
  lemma RefreshedConfigIsCurrent(env: Env, s: State, op: Op, t: State, e: string)
    requires op.RefreshCerfJson? && Step(env, s, op, t) && PlanOf(env, s, op).Finish?
    ensures e != CERF && e != Temporary(CERF) ==> At(FolderOf(t, op.name), e) == At(FolderOf(s, op.name), e)
    ensures op.name in t.dirs && !LocalRow(t, op.name).cerfJsonPending
  {
    var (before, after) := (FolderOf(s, op.name), FolderOf(t, op.name));
    var obj := RemoteFor(s.index, before).value.cerfJson.value;
    FileNamesDiffer();
    PutJsonAt(before, CERF, obj, e);
    PutJsonAt(before, CERF, obj, CERF);
    PutJsonAt(before, CERF, obj, USER);
    SameFile(before, after, USER);
    ConfigReadsBack(after, obj);
  }

  // ----- the order of the rows -----

  lemma ByRowNameIsOrder()
    ensures TotalPreorder(ByRowName())
  {
    ByLowerNameIsOrder();
    var leq := ByLowerName();
    forall a, b
      ensures ByRowName()(a, b) || ByRowName()(b, a)
    {
      assert leq(a.name, b.name) || leq(b.name, a.name);
    }
    forall a, b, c | ByRowName()(a, b) && ByRowName()(b, c)
      ensures ByRowName()(a, c)
    {
      assert leq(a.name, b.name) && leq(b.name, c.name);
    }
  }

  /** The rows are shown in the order of their lower-cased names, each once. */
  lemma SortedRows(s: State, listing: seq<string>)
    requires ProperRemotes(s) && Lists(s, listing)
    ensures forall k :: k in Rows(s, listing).keys <==> k in Rows(s, listing).at
    ensures
      var (d, out) := (Rows(s, listing), Sort(ByRowName(), Values(Rows(s, listing))));
      && SortedBy(ByRowName(), out) && multiset(out) == multiset(Values(d))
      && forall r :: r in out <==> exists k :: k in d.at && d.at[k] == r
  {
    RowsAreValid(s, listing);
    ByRowNameIsOrder();
    var d := Rows(s, listing);
    SortIsCorrect(ByRowName(), Values(d));
    var out := Sort(ByRowName(), Values(d));
    forall r
      ensures r in out <==> exists k :: k in d.at && d.at[k] == r
    {
      assert r in out <==> r in multiset(Values(d));
      ValuesAre(d, r);
    }
  }

  lemma ValuesAre(d: Dict<Row>, r: Row)
    requires ValidDict(d)
    ensures r in Values(d) <==> exists k :: k in d.at && d.at[k] == r
  {
    if r in Values(d) {
      var i :| 0 <= i < |Values(d)| && Values(d)[i] == r;
      assert d.keys[i] in d.at;
    }
    if exists k :: k in d.at && d.at[k] == r {
      var k :| k in d.at && d.at[k] == r;
      var i :| 0 <= i < |d.keys| && d.keys[i] == k;
      assert Values(d)[i] == r;
    }
  }

  /** No two device rows of the list have one name. */
  lemma DeviceNamesDiffer(s: State, listing: seq<string>, i: nat, j: nat)
    requires ProperRemotes(s) && Lists(s, listing) && i < j < |Rows(s, listing).keys|
    ensures forall k :: k in Rows(s, listing).keys <==> k in Rows(s, listing).at
    ensures
      var v := Values(Rows(s, listing));
      v[i].isLocal && v[j].isLocal ==> v[i].name != v[j].name
  {
    RowsAreValid(s, listing);
    var d := Rows(s, listing);
    RowIsOne(s, listing, d.keys[i]);
    RowIsOne(s, listing, d.keys[j]);
  }

  lemma {:induction false} AddAvailableIsValid(rows: Dict<Row>, claimed: set<Identity>, remotes: seq<RemoteBundle>)
    requires ValidDict(rows)
    ensures ValidDict(AddAvailable(rows, claimed, remotes))
  {
    if remotes != [] {
      AddAvailableIsValid(rows, claimed, remotes[..|remotes| - 1]);
    }
  }

  lemma RowsAreValid(s: State, listing: seq<string>)
    ensures ValidDict(Rows(s, listing))
  {
    LocalRowsAre(s, listing);
    AddAvailableIsValid(LocalRows(s, listing), Claimed(s, listing), s.remotes);
  }
}
