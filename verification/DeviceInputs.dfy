/** What the launcher takes from a device's two configuration files, read off the files
    themselves: the text in effect for a key, the bundle the device is linked to, and
    the entries that hold its storage (launcher/cerf_user_json.py,
    launcher/device_file_types.py). */
module DeviceInputs {
  import opened Options
  import opened Folders
  import opened DeviceStore
  import Json
  import CerfUserJson

  // ----- texts -----

  /** The file holds an object in which the key of the block is the non-empty text v. */
  predicate TextIn(folder: Folder, file: string, block: string, key: string, v: string) {
    && file in folder && folder[file].JsonFile? && folder[file].json.Obj?
    && var obj := folder[file].json.fields;
    block in obj && obj[block].Obj? && key in obj[block].fields && obj[block].fields[key] == Json.Str(v) && v != ""
  }

  ghost predicate NoTextIn(folder: Folder, file: string, block: string, key: string) {
    forall v :: !TextIn(folder, file, block, key, v)
  }

  /** The text in effect: that of cerf-user.json, else that of cerf.json. */
  ghost predicate InEffect(folder: Folder, block: string, key: string, v: string) {
    || TextIn(folder, "cerf-user.json", block, key, v)
    || (NoTextIn(folder, "cerf-user.json", block, key) && TextIn(folder, "cerf.json", block, key, v))
  }

  ghost predicate NoText(folder: Folder, block: string, key: string) {
    NoTextIn(folder, "cerf-user.json", block, key) && NoTextIn(folder, "cerf.json", block, key)
  }

  lemma TextsAre(folder: Folder, file: string, block: string, key: string, v: string)
    ensures
      var texts := CerfUserJson.TextsOf(ObjectAt(folder, file), block);
      (key in texts && texts[key] == v) <==> TextIn(folder, file, block, key, v)
  {}

  lemma TextsOfFile(folder: Folder, file: string, block: string, key: string)
    ensures
      var texts := CerfUserJson.TextsOf(ObjectAt(folder, file), block);
      && (key in texts ==> TextIn(folder, file, block, key, texts[key]))
      && (key !in texts ==> NoTextIn(folder, file, block, key))
  {
    var texts := CerfUserJson.TextsOf(ObjectAt(folder, file), block);
    forall v
      ensures (key in texts && texts[key] == v) <==> TextIn(folder, file, block, key, v)
    {
      TextsAre(folder, file, block, key, v);
    }
  }

  /** `_read_layered_block` gives the text in effect. */
  lemma LayeredIs(folder: Folder, block: string, key: string, v: string)
    ensures
      var texts := CerfUserJson.Layered(ObjectAt(folder, CERF), ObjectAt(folder, USER), block);
      && ((key in texts && texts[key] == v) <==> InEffect(folder, block, key, v))
      && (key !in texts <==> NoText(folder, block, key))
  {
    TextsOfFile(folder, CERF, block, key);
    TextsOfFile(folder, USER, block, key);
    TextsAre(folder, CERF, block, key, v);
    TextsAre(folder, USER, block, key, v);
  }

  // ----- storage -----

  /** The board of the device; empty if no file names one. */
  ghost predicate BoardIs(folder: Folder, board: string) {
    InEffect(folder, "board", "id", board) || (board == "" && NoText(folder, "board", "id"))
  }

  /** The file configured for a storage id, or the default one of a storage type of the
      board that has none. */
  ghost predicate StorageFile(env: Env, folder: Folder, id: string, v: string) {
    || InEffect(folder, "storage", id, v)
    || (NoText(folder, "storage", id) && v == id + ".img"
        && exists board :: BoardIs(folder, board) && id in env.storageIds(board))
  }

  /** The entry is there, and a storage file is it or lies in it. */
  ghost predicate HoldsStorage(env: Env, folder: Folder, e: string) {
    e in folder && exists id, v :: StorageFile(env, folder, id, v) && env.topEntry(v) == Some(e)
  }

  lemma BoardRead(folder: Folder, board: string)
    ensures
      var texts := CerfUserJson.Layered(ObjectAt(folder, CERF), ObjectAt(folder, USER), "board");
      BoardIs(folder, board) <==> board == CerfUserJson.TextOr(texts, "id", "")
  {
    var texts := CerfUserJson.Layered(ObjectAt(folder, CERF), ObjectAt(folder, USER), "board");
    LayeredIs(folder, "board", "id", board);
    LayeredIs(folder, "board", "id", CerfUserJson.TextOr(texts, "id", ""));
  }

  lemma StorageIs(env: Env, folder: Folder, id: string, v: string)
    ensures
      var values := StorageValues(env, folder);
      (id in values && values[id] == v) <==> StorageFile(env, folder, id, v)
  {
    var texts := CerfUserJson.Layered(ObjectAt(folder, CERF), ObjectAt(folder, USER), "board");
    var board := CerfUserJson.TextOr(texts, "id", "");
    LayeredIs(folder, "storage", id, v);
    BoardRead(folder, board);
    forall other
      ensures BoardIs(folder, other) <==> other == board
    {
      BoardRead(folder, other);
    }
  }

  /** An install keeps exactly the entries that hold the device's storage. */
  lemma KeptExactly(env: Env, before: Folder, e: string)
    ensures e in Kept(env, before) <==> HoldsStorage(env, before, e)
  {
    var values := StorageValues(env, before);
    if e in Kept(env, before) {
      var id :| id in values && LeadsTo(env, values[id], e);
      StorageIs(env, before, id, values[id]);
    }
    if HoldsStorage(env, before, e) {
      var id, v :| StorageFile(env, before, id, v) && env.topEntry(v) == Some(e);
      StorageIs(env, before, id, v);
      assert LeadsTo(env, values[id], e);
    }
  }

  // ----- the bundle a device is linked to -----

  predicate Links(folder: Folder, url: string, name: string) {
    && TextIn(folder, "cerf-user.json", "launcher", "repository_url", url)
    && TextIn(folder, "cerf-user.json", "launcher", "name_on_repository", name)
  }

  lemma LinkIs(folder: Folder, url: string, name: string)
    ensures LinkOf(ObjectAt(folder, USER)) == Some((url, name)) <==> Links(folder, url, name)
  {}

  lemma LinkTexts(folder: Folder)
    ensures var link := LinkOf(ObjectAt(folder, USER)); link.Some? ==> Links(folder, link.value.0, link.value.1)
  {
    var link := LinkOf(ObjectAt(folder, USER));
    if link.Some? {
      LinkIs(folder, link.value.0, link.value.1);
    }
  }

  /** The device is linked to this bundle of the index. */
  ghost predicate LinkedTo(index: map<Identity, RemoteBundle>, folder: Folder, rb: RemoteBundle) {
    exists url, name :: Links(folder, url, name) && (url, name) in index && index[(url, name)] == rb
  }

  lemma RemoteIs(index: map<Identity, RemoteBundle>, folder: Folder, rb: RemoteBundle)
    ensures RemoteFor(index, folder) == Some(rb) <==> LinkedTo(index, folder, rb)
  {
    LinkTexts(folder);
    if LinkedTo(index, folder, rb) {
      var url, name :| Links(folder, url, name) && (url, name) in index && index[(url, name)] == rb;
      LinkIs(folder, url, name);
    }
  }

  /** The last bundle of that repository and name. */
  predicate LastOf(remotes: seq<RemoteBundle>, rb: RemoteBundle) {
    exists i :: 0 <= i < |remotes| && remotes[i] == rb && NoneAfter(remotes, i, rb)
  }

  predicate NoneAfter(remotes: seq<RemoteBundle>, i: int, rb: RemoteBundle) {
    forall j :: 0 <= i < j < |remotes| ==> remotes[j].repoUrl != rb.repoUrl || remotes[j].name != rb.name
  }

  /** The index holds the last bundle of each identity. */
  lemma {:induction false} IndexHoldsLast(remotes: seq<RemoteBundle>, url: string, name: string, rb: RemoteBundle)
    ensures
      (url, name) in Index(remotes) && Index(remotes)[(url, name)] == rb
      <==> rb.repoUrl == url && rb.name == name && LastOf(remotes, rb)
  {
    if remotes != [] {
      var (front, last) := (remotes[..|remotes| - 1], remotes[|remotes| - 1]);
      IndexHoldsLast(front, url, name, rb);
      if IdentityOf(last) == (url, name) {
        assert remotes[|remotes| - 1] == last && NoneAfter(remotes, |remotes| - 1, last);
      } else if rb.repoUrl == url && rb.name == name {
        if LastOf(front, rb) {
          var i :| 0 <= i < |front| && front[i] == rb && NoneAfter(front, i, rb);
          assert remotes[i] == rb && NoneAfter(remotes, i, rb);
        }
        if LastOf(remotes, rb) {
          var i :| 0 <= i < |remotes| && remotes[i] == rb && NoneAfter(remotes, i, rb);
          assert front[i] == rb && NoneAfter(front, i, rb);
        }
      }
    }
  }

  /** A device is linked to the last bundle of the repository and name its user file
      gives. */
  lemma LinkedAfterIndex(remotes: seq<RemoteBundle>, folder: Folder, rb: RemoteBundle)
    ensures LinkedTo(Index(remotes), folder, rb) <==> Links(folder, rb.repoUrl, rb.name) && LastOf(remotes, rb)
  {
    IndexHoldsLast(remotes, rb.repoUrl, rb.name, rb);
    if LinkedTo(Index(remotes), folder, rb) {
      var url, name :| Links(folder, url, name) && (url, name) in Index(remotes) && Index(remotes)[(url, name)] == rb;
      IndexHoldsLast(remotes, url, name, rb);
    }
  }
}
