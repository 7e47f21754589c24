/** Directories and the JSON files in them, as the launcher reads and writes them
    (launcher/device_state.py, launcher/bundle_download.py).

    A directory is a map from entry names to contents. */
module Folders {
  import opened Options
  import Json
  import CerfUserJson

  datatype Entry = Blob(bytes: seq<bv8>) | JsonFile(json: Json.Json) | Tree(children: map<string, Entry>)
  type Folder = map<string, Entry>

  const CERF: string := "cerf.json"
  const USER: string := "cerf-user.json"

  function At(folder: Folder, e: string): Option<Entry> { if e in folder then Some(folder[e]) else None }

  predicate IsTree(e: Option<Entry>) { e.Some? && e.value.Tree? }

  predicate IsFile(folder: Folder, name: string) { name in folder && !folder[name].Tree? }

  // ----- reading -----

  predicate Continues(b: bv8) { 0x80 <= b <= 0xBF }

  /** Well-formed UTF-8 (table 3-7 of the Unicode Standard). */
  predicate ValidUtf8(b: seq<bv8>) {
    if b == [] then true
    else if b[0] <= 0x7F then ValidUtf8(b[1..])
    else if 0xC2 <= b[0] <= 0xDF then |b| >= 2 && Continues(b[1]) && ValidUtf8(b[2..])
    else if 0xE0 <= b[0] <= 0xEF then
      && |b| >= 3 && Continues(b[1]) && Continues(b[2])
      && (b[0] == 0xE0 ==> b[1] >= 0xA0) && (b[0] == 0xED ==> b[1] <= 0x9F) && ValidUtf8(b[3..])
    else if 0xF0 <= b[0] <= 0xF4 then
      && |b| >= 4 && Continues(b[1]) && Continues(b[2]) && Continues(b[3])
      && (b[0] == 0xF0 ==> b[1] >= 0x90) && (b[0] == 0xF4 ==> b[1] <= 0x8F) && ValidUtf8(b[4..])
    else false
  }

  /** A configuration file as its reader sees it.  What is not JSON counts as an empty
      object if it is text, and raises if it is not. */
  function FileAt(folder: Folder, name: string): CerfUserJson.File {
    if name !in folder then CerfUserJson.Missing
    else
      match folder[name]
      case JsonFile(json) => CerfUserJson.Holds(json)
      case Blob(bytes) => if ValidUtf8(bytes) then CerfUserJson.Corrupt else CerfUserJson.Undecodable
      case Tree(_) => CerfUserJson.Directory
  }

  /** Reading the file raises. */
  predicate ReadRaises(folder: Folder, name: string) { FileAt(folder, name).Undecodable? }

  function ObjectAt(folder: Folder, name: string): Json.Object { CerfUserJson.Load(FileAt(folder, name)) }

  // ----- writing -----

  /** The name of the temporary file `write_cerf_json` goes through. */
  function Temporary(name: string): string { name + ".tmp" }

  /** `write_cerf_json`; None where a directory is in the way. */
  function PutJson(folder: Folder, name: string, obj: Json.Object): Option<Folder> {
    if (name in folder && folder[name].Tree?) || (Temporary(name) in folder && folder[Temporary(name)].Tree?)
    then None
    else Some((folder - {Temporary(name)})[name := JsonFile(Json.Obj(obj))])
  }

  /** `prepared_bundle_root`: an archive of one directory stands for its contents. */
  function Root(extracted: Folder): Folder {
    if |extracted| == 1 then
      OneEntry(extracted);
      var only :| only in extracted;
      if extracted[only].Tree? then extracted[only].children else extracted
    else extracted
  }

  /** An archive of one directory has that directory's contents, any other its own. */
  ghost predicate Unpacked(archive: Folder, contents: Folder) {
    if exists n, c :: archive == map[n := Tree(c)] then exists n :: archive == map[n := Tree(contents)]
    else contents == archive
  }

  lemma RootIs(archive: Folder)
    ensures Unpacked(archive, Root(archive))
  {
    if |archive| == 1 {
      OneEntry(archive);
      var only :| only in archive;
      if archive[only].Tree? {
        assert archive == map[only := Tree(Root(archive))];
      }
    }
  }

  lemma UnpackedOnce(archive: Folder, a: Folder, b: Folder)
    requires Unpacked(archive, a) && Unpacked(archive, b)
    ensures a == b
  {
    if exists n, c :: archive == map[n := Tree(c)] {
      var n :| archive == map[n := Tree(a)];
      var m :| archive == map[m := Tree(b)];
      assert n in map[m := Tree(b)];
      assert archive[n] == Tree(a) == Tree(b);
    }
  }

  lemma OneEntry(folder: Folder)
    requires |folder| == 1
    ensures exists e :: e in folder && forall d :: d in folder ==> d == e
  {
    var e :| e in folder;
    assert |folder.Keys - {e}| == 0;
    forall d | d in folder
      ensures d == e
    {
      assert d !in folder.Keys - {e};
    }
  }
}
