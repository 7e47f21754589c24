/** The per-device override file cerf-user.json (launcher/cerf_user_json.py).

    Four writers edit the file, each in its own keys.  Every one of them is proved
    to be one patch, and the laws of patches give the rest: what is written is read
    back, a second write replaces the first, nothing else changes, and the writers
    commute although two of them share the `board` block. */
module CerfUserJson {
  import opened Json
  import opened Options

  // ----- the files of a device directory -----

  /** A configuration file: absent, not parseable, a directory of its name, not UTF-8, or
      holding a JSON value.  The reader takes the first three for an empty object and
      raises on the fourth. */
  datatype File = Missing | Corrupt | Directory | Undecodable | Holds(json: Json)

  /** `_load_json_object` of a file it can decode. */
  function LoadObject(f: File): Option<Object> {
    if f.Holds? && f.json.Obj? then Some(f.json.fields) else None
  }

  function Load(f: File): Object { if LoadObject(f).Some? then LoadObject(f).value else map[] }

  /** What `update_user_json` leaves: an empty object removes the file. */
  function Saved(obj: Object): File { if obj == map[] then Missing else Holds(Obj(obj)) }

  lemma SavedReadsBack(obj: Object)
    ensures Load(Saved(obj)) == obj
  {}

  // ----- patches -----

  /** New values for some keys of an object; None removes the key. */
  type Edit = map<string, Option<Json>>

  /** Edits of top-level keys and, separately, of keys inside top-level blocks. */
  datatype Patch = Patch(top: Edit, blocks: map<string, Edit>)

  function Block(obj: Object, key: string): Object {
    if key in obj && obj[key].Obj? then obj[key].fields else map[]
  }

  function Edited(sub: Object, edit: Edit): Object {
    map k | k in sub.Keys + edit.Keys && (k in edit ==> edit[k].Some?) ::
      if k in edit then edit[k].value else sub[k]
  }

  /** An emptied block disappears. */
  function BlockValue(sub: Object): Option<Json> { if sub == map[] then None else Some(Obj(sub)) }

  /** The value of a top-level key after a patch. */
  function Patched(obj: Object, p: Patch, key: string): Option<Json> {
    if key in p.top then p.top[key]
    else if key in p.blocks then BlockValue(Edited(Block(obj, key), p.blocks[key]))
    else Get(obj, key)
  }

  function Apply(obj: Object, p: Patch): Object {
    map k | k in obj.Keys + p.top.Keys + p.blocks.Keys && Patched(obj, p, k).Some? :: Patched(obj, p, k).value
  }

  lemma ApplyAt(obj: Object, p: Patch, key: string)
    ensures Get(Apply(obj, p), key) == Patched(obj, p, key)
  {}

  lemma SameObject(a: Object, b: Object)
    requires forall k :: Get(a, k) == Get(b, k)
    ensures a == b
  {
    forall k
      ensures k in a <==> k in b
      ensures k in a && k in b ==> a[k] == b[k]
    {
      assert Get(a, k) == Get(b, k);
    }
    assert a.Keys == b.Keys;
  }

  /** One block edited twice. */
  lemma EditedTwice(sub: Object, first: Edit, second: Edit)
    ensures Edited(Edited(sub, first), second) == Edited(sub, first + second)
  {}

  lemma BlockOfValue(obj: Object, p: Patch, key: string)
    requires key !in p.top && key in p.blocks
    ensures Block(Apply(obj, p), key) == Edited(Block(obj, key), p.blocks[key])
  {
    ApplyAt(obj, p, key);
  }

  /** The writes of two patches in a row meet no key twice in different ways. */
  predicate Independent(p: Patch, q: Patch) {
    && p.top.Keys !! q.top.Keys
    && p.top.Keys !! q.blocks.Keys && p.blocks.Keys !! q.top.Keys
    && forall b :: b in p.blocks && b in q.blocks ==> p.blocks[b].Keys !! q.blocks[b].Keys
  }

  lemma BlockElsewhere(obj: Object, p: Patch, key: string)
    requires key !in p.top && key !in p.blocks
    ensures Block(Apply(obj, p), key) == Block(obj, key)
  {
    ApplyAt(obj, p, key);
  }

  /** Patches of different keys can be applied in either order, also when they edit
      the same block and one of them empties it. */
  lemma IndependentPatchesCommute(obj: Object, p: Patch, q: Patch)
    requires Independent(p, q)
    ensures Apply(Apply(obj, p), q) == Apply(Apply(obj, q), p)
  {
    var (pq, qp) := (Apply(Apply(obj, p), q), Apply(Apply(obj, q), p));
    forall k
      ensures Get(pq, k) == Get(qp, k)
    {
      CommuteAt(obj, p, q, k);
    }
    SameObject(pq, qp);
  }

  /** Two patches that edit the same block act like one edit of it. */
  lemma BlockEditedTwice(obj: Object, p: Patch, q: Patch, k: string)
    requires k !in p.top && k !in q.top && k in p.blocks && k in q.blocks
    ensures
      Get(Apply(Apply(obj, p), q), k) == BlockValue(Edited(Block(obj, k), p.blocks[k] + q.blocks[k]))
  {
    ApplyAt(Apply(obj, p), q, k);
    BlockOfValue(obj, p, k);
    EditedTwice(Block(obj, k), p.blocks[k], q.blocks[k]);
  }

  lemma DisjointEdits(a: Edit, b: Edit)
    requires a.Keys !! b.Keys
    ensures a + b == b + a
  {}

  lemma CommuteAt(obj: Object, p: Patch, q: Patch, k: string)
    requires Independent(p, q)
    ensures Get(Apply(Apply(obj, p), q), k) == Get(Apply(Apply(obj, q), p), k)
  {
    if k !in p.top && k !in q.top && k in p.blocks && k in q.blocks {
      BlockEditedTwice(obj, p, q, k);
      BlockEditedTwice(obj, q, p, k);
      DisjointEdits(p.blocks[k], q.blocks[k]);
    } else {
      CommuteApart(obj, p, q, k);
    }
  }

  lemma CommuteApart(obj: Object, p: Patch, q: Patch, k: string)
    requires Independent(p, q)
    requires k in p.top || k in q.top || k !in p.blocks || k !in q.blocks
    ensures Get(Apply(Apply(obj, p), q), k) == Get(Apply(Apply(obj, q), p), k)
  {
    ApplyAt(obj, p, k);
    ApplyAt(obj, q, k);
    ApplyAt(Apply(obj, p), q, k);
    ApplyAt(Apply(obj, q), p, k);
    if k !in q.top && k !in q.blocks {
      BlockElsewhere(obj, q, k);
    }
    if k !in p.top && k !in p.blocks {
      BlockElsewhere(obj, p, k);
    }
  }

  /** The later patch decides every key the earlier one did. */
  predicate Overrides(later: Patch, earlier: Patch) {
    && earlier.top.Keys <= later.top.Keys
    && earlier.blocks.Keys <= later.blocks.Keys && earlier.blocks.Keys !! later.top.Keys
    && forall b :: b in earlier.blocks ==> earlier.blocks[b].Keys <= later.blocks[b].Keys
  }

  /** A patch that decides as much as an earlier one makes it as if that one had
      never been applied. */
  lemma LaterPatchWins(obj: Object, earlier: Patch, later: Patch)
    requires Overrides(later, earlier)
    ensures Apply(Apply(obj, earlier), later) == Apply(obj, later)
  {
    var (both, one) := (Apply(Apply(obj, earlier), later), Apply(obj, later));
    forall k
      ensures Get(both, k) == Get(one, k)
    {
      ApplyAt(obj, earlier, k);
      ApplyAt(obj, later, k);
      ApplyAt(Apply(obj, earlier), later, k);
      if k !in later.top && k in earlier.blocks {
        BlockOfValue(obj, earlier, k);
        EditedTwice(Block(obj, k), earlier.blocks[k], later.blocks[k]);
        assert earlier.blocks[k] + later.blocks[k] == later.blocks[k];
      } else if k !in later.top && k in later.blocks {
        BlockElsewhere(obj, earlier, k);
      }
    }
    SameObject(both, one);
  }

  // ----- the persisted launch options -----

  datatype Field =
    | NetworkEnabled | GuestAdditions | ColorScheme | FontSize | ClearType | ShareFolder | MountPoint
    | FullScreen | Width | Height | Dpi | Bpp

  type Fields = map<Field, Json>

  predicate IsText(f: Field) { f.ColorScheme? || f.ShareFolder? || f.MountPoint? }
  predicate IsSize(f: Field) { f.Width? || f.Height? || f.Dpi? || f.Bpp? }

  /** `isinstance(v, int) and v > 0`: Python's True is the integer 1. */
  predicate PositiveInt(v: Json) { (v.Int? && v.n > 0) || v == Bool(true) }

  /** The values the reader accepts for a field. */
  predicate WellTyped(f: Field, v: Json) {
    if IsText(f) then v.Str? && v.s != ""
    else if IsSize(f) then PositiveInt(v)
    else if f.FontSize? then v.Int?
    else v.Bool?
  }

  /** The block a field lives in; `full_screen` is a key of the top level. */
  function BlockOf(f: Field): string
    requires !f.FullScreen?
  {
    if f.NetworkEnabled? then "network" else if IsSize(f) then "board" else "guest_additions"
  }

  function KeyOf(f: Field): string {
    match f
    case NetworkEnabled => "enabled"
    case GuestAdditions => "enabled"
    case ColorScheme => "override_color_scheme"
    case FontSize => "override_font_size"
    case ClearType => "override_cleartype"
    case ShareFolder => "share_folder"
    case MountPoint => "shared_folder_mount_point"
    case FullScreen => "full_screen"
    case Width => "configurable_screen_width"
    case Height => "configurable_screen_height"
    case Dpi => "configurable_screen_dpi"
    case Bpp => "configurable_screen_bpp"
  }

  function RawField(obj: Object, f: Field): Option<Json> {
    if f.FullScreen? then Get(obj, KeyOf(f)) else Get(Block(obj, BlockOf(f)), KeyOf(f))
  }

  /** The well-typed value a field has in an object. */
  function FieldValue(obj: Object, f: Field): Option<Json> {
    var raw := RawField(obj, f);
    if raw.Some? && WellTyped(f, raw.value) then raw else None
  }

  /** The well-typed ones of some fields. */
  function ExtractOf(obj: Object, fs: set<Field>): Fields {
    map f | f in fs && FieldValue(obj, f).Some? :: FieldValue(obj, f).value
  }

  /** The well-typed fields an object holds. */
  function Extract(obj: Object): Fields {
    map f: Field | FieldValue(obj, f).Some? :: FieldValue(obj, f).value
  }

  lemma TakeStep(obj: Object, fs: set<Field>, f: Field)
    ensures Take(ExtractOf(obj, fs), f, RawField(obj, f)) == ExtractOf(obj, fs + {f})
  {}

  function SetOf(fs: seq<Field>): set<Field> { set f | f in fs }

  /** The reader's tests for the fields of one block, in its order. */
  method TakeBlock(obj: Object, before: Fields, ghost done: set<Field>, block: string, fs: seq<Field>)
    returns (out: Fields)
    requires before == ExtractOf(obj, done)
    requires forall f :: f in fs ==> !f.FullScreen? && BlockOf(f) == block
    ensures out == ExtractOf(obj, done + SetOf(fs))
  {
    out := before;
    if block in obj && obj[block].Obj? {
      var sub := obj[block].fields;
      assert done + SetOf(fs[..0]) == done;
      for i := 0 to |fs|
        invariant out == ExtractOf(obj, done + SetOf(fs[..i]))
      {
        TakeStep(obj, done + SetOf(fs[..i]), fs[i]);
        RawFieldOf(obj, fs[i], block);
        out := Take(out, fs[i], Get(sub, KeyOf(fs[i])));
        assert done + SetOf(fs[..i + 1]) == done + SetOf(fs[..i]) + {fs[i]};
      }
      assert fs[..|fs|] == fs;
    } else {
      NoFieldsOf(obj, done, block, fs);
    }
  }

  lemma RawFieldOf(obj: Object, f: Field, block: string)
    requires !f.FullScreen? && BlockOf(f) == block && block in obj && obj[block].Obj?
    ensures RawField(obj, f) == Get(obj[block].fields, KeyOf(f))
  {}

  /** A block that is no object holds none of its fields. */
  lemma NoFieldsOf(obj: Object, done: set<Field>, block: string, fs: seq<Field>)
    requires block !in obj || !obj[block].Obj?
    requires forall f :: f in fs ==> !f.FullScreen? && BlockOf(f) == block
    ensures ExtractOf(obj, done + SetOf(fs)) == ExtractOf(obj, done)
  {
    assert forall f :: f in SetOf(fs) ==> RawField(obj, f).None?;
  }

  const NETWORK: seq<Field> := [NetworkEnabled]
  const GUEST: seq<Field> := [GuestAdditions, ColorScheme, FontSize, ClearType, ShareFolder, MountPoint]
  const BOARD: seq<Field> := [Width, Height, Dpi, Bpp]

  lemma EveryField(f: Field)
    ensures f in SetOf(NETWORK) + SetOf(GUEST) + {FullScreen} + SetOf(BOARD)
  {
    match f
    case NetworkEnabled => assert f == NETWORK[0];
    case GuestAdditions => assert f == GUEST[0];
    case ColorScheme => assert f == GUEST[1];
    case FontSize => assert f == GUEST[2];
    case ClearType => assert f == GUEST[3];
    case ShareFolder => assert f == GUEST[4];
    case MountPoint => assert f == GUEST[5];
    case FullScreen =>
    case Width => assert f == BOARD[0];
    case Height => assert f == BOARD[1];
    case Dpi => assert f == BOARD[2];
    case Bpp => assert f == BOARD[3];
  }

  lemma ExtractEvery(obj: Object, fs: set<Field>)
    requires forall f: Field :: f in fs
    ensures ExtractOf(obj, fs) == Extract(obj)
  {
    assert ExtractOf(obj, fs).Keys == Extract(obj).Keys;
  }

  /** `_extract_persist_fields` of a parsed file. */
  method ExtractPersistFields(json: Json) returns (out: Fields)
    ensures out == if json.Obj? then Extract(json.fields) else map[]
  {
    if !json.Obj? {
      return map[];
    }
    var obj := json.fields;
    ghost var done: set<Field> := {};
    out := TakeBlock(obj, map[], done, "network", NETWORK);
    done := done + SetOf(NETWORK);
    out := TakeBlock(obj, out, done, "guest_additions", GUEST);
    done := done + SetOf(GUEST);
    TakeStep(obj, done, FullScreen);
    out := Take(out, FullScreen, Get(obj, "full_screen"));
    done := done + {FullScreen};
    out := TakeBlock(obj, out, done, "board", BOARD);
    done := done + SetOf(BOARD);
    forall f: Field
      ensures f in done
    {
      EveryField(f);
    }
    ExtractEvery(obj, done);
  }

  /** One `isinstance` test and assignment of the reader. */
  function Take(out: Fields, f: Field, v: Option<Json>): Fields {
    if v.Some? && WellTyped(f, v.value) then out[f := v.value] else out
  }

  /** What is stored for a field: the given value, except that falsy texts and a null
      font size are left out. */
  function Written(fields: Fields, f: Field): Option<Json> {
    if f !in fields || (IsText(f) && !Truthy(fields[f])) || (f.FontSize? && fields[f].Null?) then None
    else Some(fields[f])
  }

  function GuestEdit(fields: Fields): Edit {
    map[
      "enabled" := Written(fields, GuestAdditions),
      "override_color_scheme" := Written(fields, ColorScheme),
      "override_font_size" := Written(fields, FontSize),
      "override_cleartype" := Written(fields, ClearType),
      "share_folder" := Written(fields, ShareFolder),
      "shared_folder_mount_point" := Written(fields, MountPoint)]
  }

  function BoardEdit(fields: Fields): Edit {
    map[
      "configurable_screen_width" := Written(fields, Width),
      "configurable_screen_height" := Written(fields, Height),
      "configurable_screen_dpi" := Written(fields, Dpi),
      "configurable_screen_bpp" := Written(fields, Bpp)]
  }

  /** Everything `write_persist_overrides` decides. */
  function PersistPatch(fields: Fields): Patch {
    Patch(map["full_screen" := Written(fields, FullScreen)],
          map["network" := map["enabled" := Written(fields, NetworkEnabled)],
              "guest_additions" := GuestEdit(fields),
              "board" := BoardEdit(fields)])
  }

  lemma GuestEditAt(fields: Fields, f: Field)
    requires !f.FullScreen? && BlockOf(f) == "guest_additions"
    ensures KeyOf(f) in GuestEdit(fields) && GuestEdit(fields)[KeyOf(f)] == Written(fields, f)
  {
    assert |"enabled"| == 7 && |"share_folder"| == 12 && |"override_color_scheme"| == 21;
    assert |"shared_folder_mount_point"| == 25 && |"override_font_size"| == 18 == |"override_cleartype"|;
    assert "override_font_size"[9] != "override_cleartype"[9];
  }

  lemma BoardEditAt(fields: Fields, f: Field)
    requires IsSize(f)
    ensures KeyOf(f) in BoardEdit(fields) && BoardEdit(fields)[KeyOf(f)] == Written(fields, f)
  {
    assert |"configurable_screen_width"| == 25 && |"configurable_screen_height"| == 26;
    assert |"configurable_screen_dpi"| == 23 == |"configurable_screen_bpp"|;
    assert "configurable_screen_dpi"[20] != "configurable_screen_bpp"[20];
  }

  lemma BlockNamesDiffer()
    ensures "network" != "guest_additions" && "network" != "board" && "guest_additions" != "board"
    ensures "full_screen" != "network" && "full_screen" != "guest_additions" && "full_screen" != "board"
  {
    assert |"network"| == 7 && |"board"| == 5 && |"guest_additions"| == 15 && |"full_screen"| == 11;
  }

  /** The patch stores each field at its place. */
  lemma PersistPatchAt(fields: Fields, f: Field)
    ensures
      var p := PersistPatch(fields);
      if f.FullScreen? then KeyOf(f) in p.top && p.top[KeyOf(f)] == Written(fields, f)
      else
        && BlockOf(f) !in p.top && BlockOf(f) in p.blocks
        && KeyOf(f) in p.blocks[BlockOf(f)] && p.blocks[BlockOf(f)][KeyOf(f)] == Written(fields, f)
  {
    BlockNamesDiffer();
    if !f.FullScreen? {
      if IsSize(f) {
        BoardEditAt(fields, f);
      } else if !f.NetworkEnabled? {
        GuestEditAt(fields, f);
      }
    }
  }

  lemma RawFieldAfterWrite(obj: Object, fields: Fields, f: Field)
    ensures RawField(Apply(obj, PersistPatch(fields)), f) == Written(fields, f)
  {
    var p := PersistPatch(fields);
    PersistPatchAt(fields, f);
    if f.FullScreen? {
      ApplyAt(obj, p, KeyOf(f));
    } else {
      BlockOfValue(obj, p, BlockOf(f));
    }
  }

  predicate AllWellTyped(fields: Fields) { forall f :: f in fields ==> WellTyped(f, fields[f]) }

  lemma WrittenIfWellTyped(fields: Fields, f: Field)
    ensures
      var w := Written(fields, f);
      if f in fields && WellTyped(f, fields[f]) then w == Some(fields[f])
      else w.Some? ==> !WellTyped(f, w.value)
  {}

  /** The well-typed ones of the given fields. */
  function OnlyWellTyped(fields: Fields): Fields {
    map f | f in fields && WellTyped(f, fields[f]) :: fields[f]
  }

  /** Reading back what was written gives exactly the well-typed fields. */
  lemma WriteThenExtract(obj: Object, fields: Fields)
    ensures Extract(Apply(obj, PersistPatch(fields))) == OnlyWellTyped(fields)
  {
    forall f: Field
      ensures FieldValue(Apply(obj, PersistPatch(fields)), f) == ValueIn(OnlyWellTyped(fields), f)
    {
      FieldAfterWrite(obj, fields, f);
    }
    SameFields(Apply(obj, PersistPatch(fields)), OnlyWellTyped(fields));
  }

  function ValueIn(fields: Fields, f: Field): Option<Json> { if f in fields then Some(fields[f]) else None }

  lemma FieldAfterWrite(obj: Object, fields: Fields, f: Field)
    ensures FieldValue(Apply(obj, PersistPatch(fields)), f) == ValueIn(OnlyWellTyped(fields), f)
  {
    RawFieldAfterWrite(obj, fields, f);
    WrittenIfWellTyped(fields, f);
  }

  lemma SameFields(obj: Object, fields: Fields)
    requires forall f: Field :: FieldValue(obj, f) == ValueIn(fields, f)
    ensures Extract(obj) == fields
  {
    forall f: Field
      ensures f in Extract(obj) <==> f in fields
    {
      assert FieldValue(obj, f) == ValueIn(fields, f);
    }
    assert Extract(obj).Keys == fields.Keys;
    forall f: Field | f in fields
      ensures Extract(obj)[f] == fields[f]
    {
      assert FieldValue(obj, f) == ValueIn(fields, f);
    }
  }

  /** So the file returns the options it was given exactly when all are well typed. */
  lemma OptionsReadBack(obj: Object, fields: Fields)
    ensures Extract(Apply(obj, PersistPatch(fields))) == fields <==> AllWellTyped(fields)
  {
    WriteThenExtract(obj, fields);
    var got := OnlyWellTyped(fields);
    if AllWellTyped(fields) {
      assert got.Keys == fields.Keys;
    } else {
      var f :| f in fields && !WellTyped(f, fields[f]);
      assert f !in got;
    }
  }

  /** A second write is as if the first had never happened. */
  lemma SecondWriteWins(obj: Object, first: Fields, second: Fields)
    ensures
      Apply(Apply(obj, PersistPatch(first)), PersistPatch(second)) == Apply(obj, PersistPatch(second))
  {
    LaterPatchWins(obj, PersistPatch(first), PersistPatch(second));
  }

  // ----- the other three writers -----

  function LauncherPatch(url: string, name: string): Patch {
    Patch(map["launcher" := Some(Obj(map["repository_url" := Str(url), "name_on_repository" := Str(name)]))], map[])
  }

  /** An empty name drops the user's display name. */
  function NamePatch(name: string): Patch {
    Patch(map[], map["meta" := map["name" := if name != "" then Some(Str(name)) else None]])
  }

  /** A value is stored only when it is not empty and differs from the base layer's. */
  function Override(value: string, base: string): Option<Json> {
    if value != "" && value != base then Some(Str(value)) else None
  }

  function StorageDefault(id: string): string { id + ".img" }

  /** The non-empty strings of a block, later layers winning. */
  function TextsOf(obj: Object, block: string): map<string, string> {
    var sub := Block(obj, block);
    map k | k in sub && sub[k].Str? && sub[k].s != "" :: sub[k].s
  }

  /** `_read_layered_block` over cerf.json and cerf-user.json. */
  function Layered(base: Object, user: Object, block: string): map<string, string> {
    TextsOf(base, block) + TextsOf(user, block)
  }

  function TextOr(m: map<string, string>, key: string, default: string): string {
    if key in m then m[key] else default
  }

  datatype BoardFiles = BoardFiles(id: string, rom: map<string, string>, storage: map<string, string>)

  /** The edit that stores or drops each text against its base. */
  function OverrideAll(texts: map<string, string>, bases: map<string, string>): Edit
    requires bases.Keys == texts.Keys
  {
    map k | k in texts :: Override(texts[k], bases[k])
  }

  /** The same for some of the keys. */
  function OverrideSome(texts: map<string, string>, bases: map<string, string>, keys: set<string>): Edit
    requires bases.Keys == texts.Keys
  {
    map k | k in keys && k in texts :: Override(texts[k], bases[k])
  }

  lemma OverrideStep(texts: map<string, string>, bases: map<string, string>, keys: set<string>, key: string)
    requires bases.Keys == texts.Keys && key in texts && key !in keys
    ensures
      OverrideSome(texts, bases, keys) + map[key := Override(texts[key], bases[key])]
      == OverrideSome(texts, bases, keys + {key})
    ensures OverrideSome(texts, bases, {}) == map[]
    ensures OverrideSome(texts, bases, texts.Keys) == OverrideAll(texts, bases)
  {}

  function RomBases(base: Object, rom: map<string, string>): map<string, string> {
    map k | k in rom :: TextOr(TextsOf(base, "rom"), k, "")
  }

  function StorageBases(base: Object, storage: map<string, string>): map<string, string> {
    map k | k in storage :: TextOr(TextsOf(base, "storage"), k, StorageDefault(k))
  }

  function RomEdit(base: Object, rom: map<string, string>): Edit { OverrideAll(rom, RomBases(base, rom)) }

  function StorageEdit(base: Object, storage: map<string, string>): Edit {
    OverrideAll(storage, StorageBases(base, storage))
  }

  function BoardIdEdit(base: Object, id: string): Edit {
    map["id" := Override(id, TextOr(TextsOf(base, "board"), "id", ""))]
  }

  /** Blocks whose dictionary is empty are not touched at all. */
  function BlockEdit(block: string, edit: Edit): map<string, Edit> {
    if edit == map[] then map[] else map[block := edit]
  }

  function FilesPatch(base: Object, files: BoardFiles): Patch {
    Patch(map[], map["board" := BoardIdEdit(base, files.id)]
                 + BlockEdit("rom", RomEdit(base, files.rom))
                 + BlockEdit("storage", StorageEdit(base, files.storage)))
  }

  lemma MoreNamesDiffer()
    ensures "board" != "rom" && "board" != "storage" && "rom" != "storage" && "meta" != "board"
    ensures "meta" != "rom" && "meta" != "storage" && "meta" != "network" && "meta" != "guest_additions"
    ensures "rom" != "network" && "rom" != "guest_additions" && "rom" != "full_screen" && "rom" != "launcher"
    ensures "storage" != "network" && "storage" != "guest_additions" && "storage" != "full_screen" && "storage" != "launcher"
    ensures "launcher" != "network" && "launcher" != "guest_additions" && "launcher" != "board" && "launcher" != "meta"
    ensures "launcher" != "full_screen" && "meta" != "full_screen"
  {
    assert |"rom"| == 3 && |"meta"| == 4 && |"board"| == 5 && |"network"| == 7 == |"storage"| && |"launcher"| == 8;
    assert |"full_screen"| == 11 && |"guest_additions"| == 15 && "network"[0] != "storage"[0];
  }

  lemma BoardKeysDiffer(base: Object, fields: Fields, id: string)
    ensures BoardIdEdit(base, id).Keys !! BoardEdit(fields).Keys
  {
    assert |"id"| == 2 && |"configurable_screen_width"| == 25 && |"configurable_screen_height"| == 26;
    assert |"configurable_screen_dpi"| == 23 && |"configurable_screen_bpp"| == 23;
  }

  lemma FilesPatchKeys(base: Object, files: BoardFiles)
    ensures
      var p := FilesPatch(base, files);
      && p.top == map[] && "board" in p.blocks && p.blocks["board"] == BoardIdEdit(base, files.id)
      && p.blocks.Keys <= {"board", "rom", "storage"}
  {
    MoreNamesDiffer();
  }

  lemma SharedBoardBlock(p: Patch, q: Patch)
    requires p.top.Keys == {"full_screen"} && p.blocks.Keys == {"network", "guest_additions", "board"}
    requires q.top == map[] && q.blocks.Keys <= {"board", "rom", "storage"} && "board" in q.blocks
    requires p.blocks["board"].Keys !! q.blocks["board"].Keys
    ensures Independent(p, q)
  {
    BlockNamesDiffer();
    MoreNamesDiffer();
    forall b | b in p.blocks && b in q.blocks
      ensures p.blocks[b].Keys !! q.blocks[b].Keys
    {
      assert b == "board";
    }
  }

  lemma PersistAndFiles(base: Object, fields: Fields, files: BoardFiles)
    ensures Independent(PersistPatch(fields), FilesPatch(base, files))
  {
    BoardKeysDiffer(base, fields, files.id);
    FilesPatchKeys(base, files);
    SharedBoardBlock(PersistPatch(fields), FilesPatch(base, files));
  }

  lemma FilesAndOthers(base: Object, files: BoardFiles, name: string, url: string, remote: string)
    ensures Independent(FilesPatch(base, files), NamePatch(name))
    ensures Independent(FilesPatch(base, files), LauncherPatch(url, remote))
  {
    MoreNamesDiffer();
    FilesPatchKeys(base, files);
  }

  lemma PersistAndOthers(fields: Fields, name: string, url: string, remote: string)
    ensures Independent(PersistPatch(fields), NamePatch(name))
    ensures Independent(PersistPatch(fields), LauncherPatch(url, remote))
    ensures Independent(NamePatch(name), LauncherPatch(url, remote))
  {
    MoreNamesDiffer();
  }

  /** The object a patch leaves in a file; a directory stays, as does a file that cannot
      be decoded. */
  function Write(f: File, p: Patch): File { if f.Undecodable? || f.Directory? then f else Saved(Apply(Load(f), p)) }

  /** Nothing can replace a directory; only an empty object is given up without a word. */
  predicate WriteRaises(f: File, p: Patch) { f.Undecodable? || (f.Directory? && Apply(Load(f), p) != map[]) }

  /** The four writers commute pairwise, on the file itself and even where one of
      them removes the file because it became empty. */
  lemma WritersCommute(f: File, base: Object, fields: Fields, files: BoardFiles, name: string, url: string, remote: string)
    ensures
      var (persist, board) := (PersistPatch(fields), FilesPatch(base, files));
      var (meta, link) := (NamePatch(name), LauncherPatch(url, remote));
      && Write(Write(f, persist), board) == Write(Write(f, board), persist)
      && Write(Write(f, persist), meta) == Write(Write(f, meta), persist)
      && Write(Write(f, persist), link) == Write(Write(f, link), persist)
      && Write(Write(f, board), meta) == Write(Write(f, meta), board)
      && Write(Write(f, board), link) == Write(Write(f, link), board)
      && Write(Write(f, meta), link) == Write(Write(f, link), meta)
  {
    PersistAndFiles(base, fields, files);
    FilesAndOthers(base, files, name, url, remote);
    PersistAndOthers(fields, name, url, remote);
    WritesCommute(f, PersistPatch(fields), FilesPatch(base, files));
    WritesCommute(f, PersistPatch(fields), NamePatch(name));
    WritesCommute(f, PersistPatch(fields), LauncherPatch(url, remote));
    WritesCommute(f, FilesPatch(base, files), NamePatch(name));
    WritesCommute(f, FilesPatch(base, files), LauncherPatch(url, remote));
    WritesCommute(f, NamePatch(name), LauncherPatch(url, remote));
  }

  lemma WritesCommute(f: File, p: Patch, q: Patch)
    requires Independent(p, q)
    ensures Write(Write(f, p), q) == Write(Write(f, q), p)
  {
    SavedReadsBack(Apply(Load(f), p));
    SavedReadsBack(Apply(Load(f), q));
    IndependentPatchesCommute(Load(f), p, q);
  }

  // ----- what a write leaves alone, and what is read back -----

  /** Keys outside a patch, at the top level or inside an edited block, keep their
      values. */
  lemma UntouchedKeysSurvive(obj: Object, p: Patch, block: string, key: string)
    ensures block !in p.top && block !in p.blocks ==> Get(Apply(obj, p), block) == Get(obj, block)
    ensures
      block !in p.top && block in p.blocks && key !in p.blocks[block] ==>
        Get(Block(Apply(obj, p), block), key) == Get(Block(obj, block), key)
  {
    ApplyAt(obj, p, block);
    if block !in p.top && block in p.blocks {
      BlockOfValue(obj, p, block);
    }
  }

  lemma TextAfterEdit(base: Object, user: Object, p: Patch, block: string, key: string, value: string, baseText: string)
    requires block !in p.top && block in p.blocks && key in p.blocks[block]
    requires p.blocks[block][key] == Override(value, baseText)
    ensures
      var read := Layered(base, Apply(user, p), block);
      if value != "" && value != baseText then key in read && read[key] == value
      else (key in read <==> key in TextsOf(base, block)) && (key in read ==> read[key] == TextsOf(base, block)[key])
  {
    BlockOfValue(user, p, block);
  }

  /** The board and file names given to `write_board_file_overrides` are the ones in
      effect afterwards, over the base layer and the default names; an empty name
      falls back to them. */
  lemma BoardFilesReadBack(base: Object, user: Object, files: BoardFiles, key: string)
    ensures
      var after := Apply(user, FilesPatch(base, files));
      && TextOr(Layered(base, after, "board"), "id", "")
         == (if files.id != "" then files.id else TextOr(TextsOf(base, "board"), "id", ""))
      && (key in files.rom ==>
            TextOr(Layered(base, after, "rom"), key, "")
            == if files.rom[key] != "" then files.rom[key] else TextOr(TextsOf(base, "rom"), key, ""))
      && (key in files.storage ==>
            TextOr(Layered(base, after, "storage"), key, StorageDefault(key))
            == if files.storage[key] != "" then files.storage[key]
               else TextOr(TextsOf(base, "storage"), key, StorageDefault(key)))
  {
    BoardIdReadsBack(base, user, files);
    if key in files.rom {
      RomReadsBack(base, user, files, key);
    }
    if key in files.storage {
      StorageReadsBack(base, user, files, key);
    }
  }

  lemma BoardIdReadsBack(base: Object, user: Object, files: BoardFiles)
    ensures
      TextOr(Layered(base, Apply(user, FilesPatch(base, files)), "board"), "id", "")
      == if files.id != "" then files.id else TextOr(TextsOf(base, "board"), "id", "")
  {
    MoreNamesDiffer();
    TextReadsBack(base, user, FilesPatch(base, files), "board", "id", files.id, "");
  }

  lemma RomReadsBack(base: Object, user: Object, files: BoardFiles, key: string)
    requires key in files.rom
    ensures
      TextOr(Layered(base, Apply(user, FilesPatch(base, files)), "rom"), key, "")
      == if files.rom[key] != "" then files.rom[key] else TextOr(TextsOf(base, "rom"), key, "")
  {
    MoreNamesDiffer();
    assert key in RomEdit(base, files.rom);
    TextReadsBack(base, user, FilesPatch(base, files), "rom", key, files.rom[key], "");
  }

  lemma StorageReadsBack(base: Object, user: Object, files: BoardFiles, key: string)
    requires key in files.storage
    ensures
      TextOr(Layered(base, Apply(user, FilesPatch(base, files)), "storage"), key, StorageDefault(key))
      == if files.storage[key] != "" then files.storage[key]
         else TextOr(TextsOf(base, "storage"), key, StorageDefault(key))
  {
    MoreNamesDiffer();
    assert key in StorageEdit(base, files.storage);
    TextReadsBack(base, user, FilesPatch(base, files), "storage", key, files.storage[key], StorageDefault(key));
  }

  /** One text over its base and its default. */
  lemma TextReadsBack(base: Object, user: Object, p: Patch, block: string, key: string, value: string, default: string)
    requires block !in p.top && block in p.blocks && key in p.blocks[block]
    requires p.blocks[block][key] == Override(value, TextOr(TextsOf(base, block), key, default))
    ensures
      TextOr(Layered(base, Apply(user, p), block), key, default)
      == if value != "" then value else TextOr(TextsOf(base, block), key, default)
  {
    TextAfterEdit(base, user, p, block, key, value, TextOr(TextsOf(base, block), key, default));
  }

  // ----- the writers at work on the files -----

  /** `sub[key] = value` or `sub.pop(key, None)`. */
  function With(sub: Object, key: string, value: Option<Json>): Object {
    if value.Some? then sub[key := value.value] else sub - {key}
  }

  /** `obj[block] = sub` or, when sub is empty, `obj.pop(block, None)`. */
  function PutBlock(obj: Object, block: string, sub: Object): Object {
    if sub != map[] then obj[block := Obj(sub)] else obj - {block}
  }

  lemma WithIsEdit(sub: Object, edit: Edit, key: string, value: Option<Json>)
    ensures With(Edited(sub, edit), key, value) == Edited(sub, edit[key := value])
  {}

  function OneBlock(block: string, edit: Edit): Patch { Patch(map[], map[block := edit]) }

  lemma PutBlockIsPatch(obj: Object, block: string, edit: Edit)
    ensures PutBlock(obj, block, Edited(Block(obj, block), edit)) == Apply(obj, OneBlock(block, edit))
  {
    var (a, b) := (PutBlock(obj, block, Edited(Block(obj, block), edit)), Apply(obj, OneBlock(block, edit)));
    forall k
      ensures Get(a, k) == Get(b, k)
    {
      ApplyAt(obj, OneBlock(block, edit), k);
    }
    SameObject(a, b);
  }

  /** What one more block edit adds to a patch. */
  function PlusBlock(p: Patch, block: string, edit: Edit): Patch {
    Patch(p.top, p.blocks[block := (if block in p.blocks then p.blocks[block] else map[]) + edit])
  }

  lemma ThenBlock(obj: Object, p: Patch, block: string, edit: Edit)
    requires block !in p.top
    ensures Apply(Apply(obj, p), OneBlock(block, edit)) == Apply(obj, PlusBlock(p, block, edit))
  {
    var (a, b) := (Apply(Apply(obj, p), OneBlock(block, edit)), Apply(obj, PlusBlock(p, block, edit)));
    forall k
      ensures Get(a, k) == Get(b, k)
    {
      ApplyAt(obj, p, k);
      ApplyAt(Apply(obj, p), OneBlock(block, edit), k);
      ApplyAt(obj, PlusBlock(p, block, edit), k);
      if k == block {
        if k in p.blocks {
          BlockEditedTwice(obj, p, OneBlock(block, edit), k);
        } else {
          BlockElsewhere(obj, p, k);
          EditedByNothing(edit);
        }
      }
    }
    SameObject(a, b);
  }

  lemma EditedByNothing(edit: Edit)
    ensures map[] + edit == edit
    ensures forall sub: Object :: Edited(sub, map[]) == sub
  {}

  lemma ThenTop(obj: Object, p: Patch, key: string, value: Option<Json>)
    requires key !in p.blocks
    ensures With(Apply(obj, p), key, value) == Apply(obj, Patch(p.top[key := value], p.blocks))
  {
    var (a, b) := (With(Apply(obj, p), key, value), Apply(obj, Patch(p.top[key := value], p.blocks)));
    forall k
      ensures Get(a, k) == Get(b, k)
    {
      ApplyAt(obj, p, k);
      ApplyAt(obj, Patch(p.top[key := value], p.blocks), k);
    }
    SameObject(a, b);
  }

  lemma EmptyPatch(obj: Object)
    ensures Apply(obj, Patch(map[], map[])) == obj
  {
    forall k
      ensures Get(Apply(obj, Patch(map[], map[])), k) == Get(obj, k)
    {
      ApplyAt(obj, Patch(map[], map[]), k);
    }
    SameObject(Apply(obj, Patch(map[], map[])), obj);
  }

  /** Rewriting one block of an object that a patch has produced. */
  method StoreBlock(obj: Object, block: string, sub: Object, ghost start: Object, ghost p: Patch, ghost edit: Edit)
    returns (after: Object)
    requires obj == Apply(start, p) && block !in p.top
    requires sub == Edited(Block(obj, block), edit)
    ensures after == Apply(start, PlusBlock(p, block, edit))
  {
    PutBlockIsPatch(obj, block, edit);
    ThenBlock(start, p, block, edit);
    if sub != map[] {
      after := obj[block := Obj(sub)];
    } else {
      after := obj - {block};
    }
  }

  method GuestBlock(prev: Object, fields: Fields) returns (ga: Object)
    ensures ga == Edited(prev, GuestEdit(fields))
  {
    ghost var e: Edit := map[];
    EditedByNothing(e);
    ga := StoreKey(prev, prev, e, "enabled", Written(fields, GuestAdditions));
    e := e["enabled" := Written(fields, GuestAdditions)];
    ga := StoreKey(ga, prev, e, "override_color_scheme", Written(fields, ColorScheme));
    e := e["override_color_scheme" := Written(fields, ColorScheme)];
    ga := StoreKey(ga, prev, e, "override_font_size", Written(fields, FontSize));
    e := e["override_font_size" := Written(fields, FontSize)];
    ga := StoreKey(ga, prev, e, "override_cleartype", Written(fields, ClearType));
    e := e["override_cleartype" := Written(fields, ClearType)];
    ga := StoreKey(ga, prev, e, "share_folder", Written(fields, ShareFolder));
    e := e["share_folder" := Written(fields, ShareFolder)];
    ga := StoreKey(ga, prev, e, "shared_folder_mount_point", Written(fields, MountPoint));
  }

  method StoreKey(sub: Object, ghost prev: Object, ghost edit: Edit, key: string, value: Option<Json>)
    returns (after: Object)
    requires sub == Edited(prev, edit)
    ensures after == Edited(prev, edit[key := value])
  {
    WithIsEdit(prev, edit, key, value);
    after := if value.Some? then sub[key := value.value] else sub - {key};
  }

  method BoardBlock(prev: Object, fields: Fields) returns (board: Object)
    ensures board == Edited(prev, BoardEdit(fields))
  {
    ghost var e: Edit := map[];
    EditedByNothing(e);
    board := StoreKey(prev, prev, e, "configurable_screen_width", Written(fields, Width));
    e := e["configurable_screen_width" := Written(fields, Width)];
    board := StoreKey(board, prev, e, "configurable_screen_height", Written(fields, Height));
    e := e["configurable_screen_height" := Written(fields, Height)];
    board := StoreKey(board, prev, e, "configurable_screen_dpi", Written(fields, Dpi));
    e := e["configurable_screen_dpi" := Written(fields, Dpi)];
    board := StoreKey(board, prev, e, "configurable_screen_bpp", Written(fields, Bpp));
  }

  /** A device directory's two configuration files. */
  class DeviceDir {
    var cerf: File
    var user: File

    /** The end of `update_user_json`. */
    method Store(obj: Object) returns (raised: bool)
      requires !user.Undecodable?
      modifies this`user
      ensures user == if old(user).Directory? then old(user) else Saved(obj)
      ensures raised == (old(user).Directory? && obj != map[])
    {
      raised := user.Directory? && obj != map[];
      if !user.Directory? {
        user := Saved(obj);
      }
    }

    method WritePersistOverrides(fields: Fields) returns (raised: bool)
      modifies this`user
      ensures user == Write(old(user), PersistPatch(fields)) && raised == WriteRaises(old(user), PersistPatch(fields))
    {
      raised := user.Undecodable?;
      if raised {
        return;
      }
      BlockNamesDiffer();
      ghost var start := Load(user);
      ghost var p := Patch(map[], map[]);
      EmptyPatch(start);
      EditedByNothing(map[]);
      var obj := Load(user);
      var net := StoreKey(Block(obj, "network"), Block(obj, "network"), map[], "enabled", Written(fields, NetworkEnabled));
      ghost var edit := map["enabled" := Written(fields, NetworkEnabled)];
      obj := StoreBlock(obj, "network", net, start, p, edit);
      p := PlusBlock(p, "network", edit);
      var ga := GuestBlock(Block(obj, "guest_additions"), fields);
      obj := StoreBlock(obj, "guest_additions", ga, start, p, GuestEdit(fields));
      p := PlusBlock(p, "guest_additions", GuestEdit(fields));
      ThenTop(start, p, "full_screen", Written(fields, FullScreen));
      obj := With(obj, "full_screen", Written(fields, FullScreen));
      p := Patch(p.top["full_screen" := Written(fields, FullScreen)], p.blocks);
      var board := BoardBlock(Block(obj, "board"), fields);
      obj := StoreBlock(obj, "board", board, start, p, BoardEdit(fields));
      p := PlusBlock(p, "board", BoardEdit(fields));
      EditedByNothing(edit);
      EditedByNothing(GuestEdit(fields));
      EditedByNothing(BoardEdit(fields));
      assert p == PersistPatch(fields);
      raised := Store(obj);
    }

    method WriteUserMetaName(name: string) returns (raised: bool)
      modifies this`user
      ensures user == Write(old(user), NamePatch(name)) && raised == WriteRaises(old(user), NamePatch(name))
    {
      raised := user.Undecodable?;
      if raised {
        return;
      }
      var obj := Load(user);
      var meta := Block(obj, "meta");
      EditedByNothing(map[]);
      WithIsEdit(meta, map[], "name", if name != "" then Some(Str(name)) else None);
      PutBlockIsPatch(obj, "meta", map["name" := if name != "" then Some(Str(name)) else None]);
      if name != "" {
        meta := meta["name" := Str(name)];
      } else {
        meta := meta - {"name"};
      }
      if meta != map[] {
        obj := obj["meta" := Obj(meta)];
      } else {
        obj := obj - {"meta"};
      }
      raised := Store(obj);
    }

    method WriteLauncherLink(url: string, name: string) returns (raised: bool)
      modifies this`user
      ensures user == Write(old(user), LauncherPatch(url, name)) && raised == WriteRaises(old(user), LauncherPatch(url, name))
    {
      raised := user.Undecodable?;
      if raised {
        return;
      }
      var obj := Load(user);
      var link := Obj(map["repository_url" := Str(url), "name_on_repository" := Str(name)]);
      EmptyPatch(obj);
      ThenTop(obj, Patch(map[], map[]), "launcher", Some(link));
      raised := Store(obj["launcher" := link]);
    }

    /** `put` of one key: stored or dropped, and the block with it when it empties. */
    method Put(obj: Object, block: string, key: string, value: string, base: string,
               ghost start: Object, ghost p: Patch) returns (after: Object)
      requires obj == Apply(start, p) && block !in p.top
      ensures after == Apply(start, PlusBlock(p, block, map[key := Override(value, base)]))
    {
      EditedByNothing(map[]);
      var sub := StoreKey(Block(obj, block), Block(obj, block), map[], key, Override(value, base));
      after := StoreBlock(obj, block, sub, start, p, map[key := Override(value, base)]);
    }

    /** One turn of the loop over the rom or the storage names. */
    method PutNext(obj: Object, block: string, key: string, texts: map<string, string>, bases: map<string, string>,
                   ghost start: Object, ghost q: Patch, ghost done: set<string>) returns (after: Object)
      requires bases.Keys == texts.Keys && key in texts && key !in done
      requires block !in q.top && block !in q.blocks && obj == Apply(start, Partial(q, block, texts, bases, done))
      ensures after == Apply(start, Partial(q, block, texts, bases, done + {key}))
    {
      PartialStep(q, block, texts, bases, done, key);
      after := Put(obj, block, key, texts[key], bases[key], start, Partial(q, block, texts, bases, done));
    }

    /** The loop over the rom or the storage names. */
    method PutAll(obj: Object, block: string, texts: map<string, string>, bases: map<string, string>,
                  ghost start: Object, ghost q: Patch) returns (after: Object)
      requires obj == Apply(start, q) && block !in q.top && block !in q.blocks
      requires bases.Keys == texts.Keys
      ensures after == Apply(start, Patch(q.top, q.blocks + BlockEdit(block, OverrideAll(texts, bases))))
    {
      after := obj;
      var todo := texts.Keys;
      ghost var done: set<string> := {};
      NoTextsYet(q, block, texts, bases);
      while todo != {}
        invariant todo <= texts.Keys && done == texts.Keys - todo
        invariant after == Apply(start, Partial(q, block, texts, bases, done))
        decreases todo
      {
        var key :| key in todo;
        after := PutNext(after, block, key, texts, bases, start, q, done);
        done, todo := done + {key}, todo - {key};
      }
      assert OverrideSome(texts, bases, done) == OverrideAll(texts, bases);
    }

    method WriteBoardFileOverrides(files: BoardFiles) returns (raised: bool)
      modifies this`user
      ensures raised == (cerf.Undecodable? || WriteRaises(old(user), FilesPatch(Load(cerf), files)))
      ensures user == if raised then old(user) else Write(old(user), FilesPatch(Load(cerf), files))
    {
      raised := cerf.Undecodable? || user.Undecodable?;
      if raised {
        return;
      }
      MoreNamesDiffer();
      var (base, obj) := (Load(cerf), Load(user));
      ghost var (start, p) := (obj, Patch(map[], map[]));
      EmptyPatch(start);
      obj := Put(obj, "board", "id", files.id, TextOr(TextsOf(base, "board"), "id", ""), start, p);
      EditedByNothing(BoardIdEdit(base, files.id));
      p := Patch(map[], map["board" := BoardIdEdit(base, files.id)]);
      obj := PutAll(obj, "rom", files.rom, RomBases(base, files.rom), start, p);
      p := Patch(map[], p.blocks + BlockEdit("rom", RomEdit(base, files.rom)));
      obj := PutAll(obj, "storage", files.storage, StorageBases(base, files.storage), start, p);
      raised := Store(obj);
    }
  }

  lemma GrowBlock(q: Patch, block: string, done: Edit, one: Edit)
    requires block !in q.blocks && one != map[]
    ensures
      PlusBlock(Patch(q.top, q.blocks + BlockEdit(block, done)), block, one)
      == Patch(q.top, q.blocks + BlockEdit(block, done + one))
  {
    var key :| key in one;
    assert key in done + one;
    EditedByNothing(one);
  }

  /** The patch q and the texts put so far. */
  function Partial(q: Patch, block: string, texts: map<string, string>, bases: map<string, string>,
                   keys: set<string>): Patch
    requires bases.Keys == texts.Keys
  {
    Patch(q.top, q.blocks + BlockEdit(block, OverrideSome(texts, bases, keys)))
  }

  lemma NoTextsYet(q: Patch, block: string, texts: map<string, string>, bases: map<string, string>)
    requires bases.Keys == texts.Keys
    ensures Partial(q, block, texts, bases, {}) == q
  {
    assert OverrideSome(texts, bases, {}) == map[];
    assert q.blocks + map[] == q.blocks;
  }

  lemma PartialStep(q: Patch, block: string, texts: map<string, string>, bases: map<string, string>,
                    keys: set<string>, key: string)
    requires bases.Keys == texts.Keys && block !in q.blocks && key in texts && key !in keys
    ensures
      PlusBlock(Partial(q, block, texts, bases, keys), block, map[key := Override(texts[key], bases[key])])
      == Partial(q, block, texts, bases, keys + {key})
  {
    var one := map[key := Override(texts[key], bases[key])];
    assert key in one;
    GrowBlock(q, block, OverrideSome(texts, bases, keys), one);
    OverrideStep(texts, bases, keys, key);
  }
}
