/** A concrete refresh that raises and leaves the manifest behind the records
    (launcher/operations.py): one device linked to a bundle, its record without a hash,
    and one whose user file is not UTF-8. */
module RefreshWitness {
  import opened Options
  import opened OrderedDict
  import opened LocalManifest
  import opened SafeNames
  import opened Folders
  import opened DeviceStore
  import opened DeviceInstall
  import opened DeviceRuns
  import opened InstallWitnesses
  import Json
  import CerfUserJson

  const HASHED := RemoteBundle("b", "u", "1", Some("h"), None, [])

  /** The user file of a device installed from that bundle. */
  const LINKED: Json.Object := CerfUserJson.Apply(map[], CerfUserJson.LauncherPatch("u", "b"))

  const BARE := Record(None, None, [])

  const TWO: Dict<Record> := Dict(["d", "e"], map["d" := BARE, "e" := BARE])

  /** Both devices, and the manifest that was saved of them. */
  function TwoDevices(): State {
    State(map["d" := map[USER := JsonFile(Json.Obj(LINKED))], "e" := map[USER := BINARY]], TWO, Parsed(Save(TWO)), [], map[])
  }

  lemma EIsSafe()
    ensures SafeName("e")
  {
    assert UpToDot("e") == "e" && DropSpaces("e") == "e" && |Upper("e")| == 1;
    assert |"CON"| == 3 && |"PRN"| == 3 && |"AUX"| == 3 && |"NUL"| == 3;
  }

  lemma BareIsNormal()
    ensures Normalise(BARE) == BARE
  {
    assert Regroup([]) == [];
  }

  lemma TwoAreValid()
    ensures ValidDict(TWO) && AllOneEach(TWO.at)
  {
    assert "d"[0] != "e"[0];
  }

  lemma TwoAreGood()
    ensures Load(Parsed(Save(TWO))).at == TWO.at && InStep(TWO, Parsed(Save(TWO))) && Good(TwoDevices())
  {
    TwoAreValid();
    BareIsNormal();
    SavedInStep(TWO);
    assert Load(Parsed(Save(TWO))).at == TWO.at;
  }

  lemma FirstGetsHash()
    ensures Filled(TwoDevices().dirs, map[("u", "b") := HASHED], "d", BARE) == BARE.(sha256 := Some("h"))
  {
    DIsSafe();
    LinkReadsBack(map[], "u", "b");
  }

  lemma HashedIndex()
    ensures Index([HASHED]) == map[("u", "b") := HASHED]
  {
    assert [HASHED][..0] == [];
  }

  /** The first device can get its hash. */
  lemma FirstIsFillable()
    ensures Fillable(TwoDevices(), [HASHED], "d")
    ensures Filled(TwoDevices().dirs, Index([HASHED]), "d", BARE) == BARE.(sha256 := Some("h"))
  {
    TwoAreGood();
    HashedIndex();
    FirstGetsHash();
  }

  lemma SecondIsStuck()
    ensures CutOff(TwoDevices())
  {
    TwoAreGood();
    EIsSafe();
    BinaryIsNotText();
    assert Stuck(TwoDevices().dirs, Load(TwoDevices().manifest), "e");
  }

  /** If the refresh comes to the linked device first, its hash is in memory and not in
      the manifest when the refresh raises. */
  lemma RefreshLeavesManifestBehind()
    ensures
      var (s, t) := (TwoDevices(), AfterCutOff(TwoDevices(), [HASHED], {"d"}));
      && Good(s) && InStep(s.installed, s.manifest) && CutOff(s) && Refreshes(s, [HASHED], t) && !InStep(t.installed, t.manifest)
      && Get(t.installed, "d") == Some(BARE.(sha256 := Some("h"))) && Get(Load(t.manifest), "d") == Some(BARE)
  {
    TwoAreGood();
    BareIsNormal();
    FirstIsFillable();
    SecondIsStuck();
    FallsBehindOn(TwoDevices(), [HASHED], "d");
  }
}
