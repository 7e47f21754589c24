/** Launch options layered over a device's own configuration
    (launcher/persisted_options.py): the options in effect are a baseline taken from
    cerf.json with the overrides of cerf-user.json on top. */
module PersistedOptions {
  import opened Json
  import opened Options
  import opened CerfUserJson

  /** Options that are stored even when they equal the baseline. */
  predicate Explicit(f: Field) { f.Width? || f.Height? || f.Bpp? }

  function FieldOr(fields: Fields, f: Field, default: Json): Json { if f in fields then fields[f] else default }

  /** `resolve_baseline`; the shared-folder mount point's default comes from the
      board database. */
  function Baseline(base: Fields, mountPoint: string): Fields {
    map[NetworkEnabled := FieldOr(base, NetworkEnabled, Bool(true)),
        GuestAdditions := FieldOr(base, GuestAdditions, Bool(false)),
        ColorScheme := FieldOr(base, ColorScheme, Str("")),
        FullScreen := FieldOr(base, FullScreen, Bool(false)),
        MountPoint := FieldOr(base, MountPoint, Str(mountPoint))]
    + map f | f in {ShareFolder, Dpi, FontSize, ClearType} && f in base :: base[f]
  }

  /** The baseline, field by field: what cerf.json has; else networking is on, guest
      additions and full screen are off, there is no colour scheme, and the mount point
      is the board's; the other fields, and always the screen's size and depth, are
      absent. */
  lemma BaselineIs(base: Fields, mountPoint: string, f: Field)
    ensures
      ValueIn(Baseline(base, mountPoint), f)
      == if f in base && f !in {Width, Height, Bpp} then Some(base[f])
         else
           match f
           case NetworkEnabled => Some(Bool(true))
           case GuestAdditions => Some(Bool(false))
           case FullScreen => Some(Bool(false))
           case ColorScheme => Some(Str(""))
           case MountPoint => Some(Str(mountPoint))
           case _ => None
  {}

  /** One of the two files cannot be decoded: then nothing can be read. */
  predicate Unreadable(cerf: File, user: File) { cerf.Undecodable? || user.Undecodable? }

  /** `effective_values`, which raises on such a file. */
  function EffectiveValues(cerf: File, user: File, mountPoint: string): Option<Fields> {
    if Unreadable(cerf, user) then None else Some(Effective(cerf, user, mountPoint))
  }

  /** What `effective_values` returns next to the baseline. */
  function Effective(cerf: File, user: File, mountPoint: string): Fields {
    Baseline(Extract(Load(cerf)), mountPoint) + Extract(Load(user))
  }

  /** `current[key] != baseline.get(key)`: an absent key reads as null. */
  predicate Differs(current: Fields, baseline: Fields, f: Field)
    requires f in current
  {
    current[f] != FieldOr(baseline, f, Null)
  }

  /** The override kept for a field by `persist_subset`. */
  function Kept(overrides: Fields, baseline: Fields, owned: set<Field>, current: Fields, f: Field): Option<Json> {
    if f !in owned then ValueIn(overrides, f)
    else if f in current && (Explicit(f) || Differs(current, baseline, f)) then Some(current[f])
    else None
  }

  function Subset(overrides: Fields, baseline: Fields, owned: set<Field>, current: Fields): Fields {
    map f: Field | Kept(overrides, baseline, owned, current, f).Some? ::
      Kept(overrides, baseline, owned, current, f).value
  }

  lemma SubsetOfNothing(overrides: Fields, baseline: Fields, current: Fields)
    ensures Subset(overrides, baseline, {}, current) == overrides
  {
    assert Subset(overrides, baseline, {}, current).Keys == overrides.Keys;
  }

  lemma SubsetStep(overrides: Fields, baseline: Fields, owned: set<Field>, current: Fields, key: Field)
    ensures
      var rest := Subset(overrides, baseline, owned, current) - {key};
      Subset(overrides, baseline, owned + {key}, current)
      == if key in current && (Explicit(key) || Differs(current, baseline, key)) then rest[key := current[key]] else rest
  {}

  method MergeOwned(overrides: Fields, baseline: Fields, owned: seq<Field>, current: Fields) returns (merged: Fields)
    ensures merged == Subset(overrides, baseline, SetOf(owned), current)
  {
    merged := overrides;
    SubsetOfNothing(overrides, baseline, current);
    assert SetOf(owned[..0]) == {};
    for i := 0 to |owned|
      invariant merged == Subset(overrides, baseline, SetOf(owned[..i]), current)
    {
      var key := owned[i];
      SubsetStep(overrides, baseline, SetOf(owned[..i]), current, key);
      assert SetOf(owned[..i + 1]) == SetOf(owned[..i]) + {key};
      merged := merged - {key};
      if key in current && (Explicit(key) || Differs(current, baseline, key)) {
        merged := merged[key := current[key]];
      }
    }
    assert owned[..|owned|] == owned;
  }

  method PersistSubset(dir: DeviceDir, baseline: Fields, owned: seq<Field>, current: Fields) returns (raised: bool)
    modifies dir`user
    ensures raised == StoringRaises(dir.cerf, old(dir.user), baseline, SetOf(owned), current)
    ensures dir.user == Persisted(dir.cerf, old(dir.user), baseline, SetOf(owned), current)
  {
    raised := dir.cerf.Undecodable? || dir.user.Undecodable?;
    if !raised {
      var merged := MergeOwned(Extract(Load(dir.user)), baseline, owned, current);
      raised := dir.WritePersistOverrides(merged);
    }
  }

  /** `persist_subset` raises: a file cannot be decoded, or a directory stands where the
      user file would be written. */
  predicate StoringRaises(cerf: File, user: File, baseline: Fields, owned: set<Field>, current: Fields) {
    || Unreadable(cerf, user)
    || WriteRaises(user, PersistPatch(Subset(Extract(Load(user)), baseline, owned, current)))
  }

  /** The user file after `persist_subset`. */
  function Persisted(cerf: File, user: File, baseline: Fields, owned: set<Field>, current: Fields): File {
    if Unreadable(cerf, user) then user
    else Write(user, PersistPatch(Subset(Extract(Load(user)), baseline, owned, current)))
  }

  lemma ExtractedAreWellTyped(obj: Object)
    ensures AllWellTyped(Extract(obj))
  {}

  lemma PersistedOverrides(cerf: File, user: File, baseline: Fields, owned: set<Field>, current: Fields)
    requires !Unreadable(cerf, user) && !user.Directory?
    ensures !Unreadable(cerf, Persisted(cerf, user, baseline, owned, current))
    ensures
      Extract(Load(Persisted(cerf, user, baseline, owned, current)))
      == OnlyWellTyped(Subset(Extract(Load(user)), baseline, owned, current))
  {
    var fields := Subset(Extract(Load(user)), baseline, owned, current);
    WriteThenExtract(Load(user), fields);
    SavedReadsBack(Apply(Load(user), PersistPatch(fields)));
  }

  /** What is stored for a field and read back. */
  function Stored(overrides: Fields, baseline: Fields, owned: set<Field>, current: Fields, f: Field): Option<Json> {
    var kept := Kept(overrides, baseline, owned, current, f);
    if kept.Some? && WellTyped(f, kept.value) then kept else None
  }

  lemma StoredIs(overrides: Fields, baseline: Fields, owned: set<Field>, current: Fields, f: Field)
    ensures
      ValueIn(OnlyWellTyped(Subset(overrides, baseline, owned, current)), f)
      == Stored(overrides, baseline, owned, current, f)
  {}

  lemma LayeredValue(baseline: Fields, over: Fields, f: Field)
    ensures ValueIn(baseline + over, f) == if f in over then ValueIn(over, f) else ValueIn(baseline, f)
  {}

  /** The rule for one field, over any baseline and any stored overrides. */
  lemma EffectiveField(baseline: Fields, overrides: Fields, owned: set<Field>, current: Fields, f: Field)
    requires AllWellTyped(overrides)
    ensures
      var stored := OnlyWellTyped(Subset(overrides, baseline, owned, current));
      var now := ValueIn(baseline + stored, f);
      && (f in owned && f in current ==>
            (now == Some(current[f]) <==> WellTyped(f, current[f]) || ValueIn(baseline, f) == Some(current[f])))
      && (f in owned && f !in current ==> now == ValueIn(baseline, f))
      && (f !in owned ==> now == ValueIn(baseline + overrides, f))
      && (f in owned && f in stored ==> f in current && (Explicit(f) || ValueIn(baseline, f) != Some(current[f])))
  {
    NullIsNeverWellTyped(f);
    StoredIs(overrides, baseline, owned, current, f);
    LayeredValue(baseline, OnlyWellTyped(Subset(overrides, baseline, owned, current)), f);
    LayeredValue(baseline, overrides, f);
  }

  /** After `persist_subset`, field by field: an owned field that is set now has the
      current value exactly when the reader accepts that value or the baseline has
      it already; an owned field that is not set falls back to the baseline; every
      other field keeps the value it had; and an owned field is stored only when it
      is explicit or differs from the baseline.  A file that cannot be decoded lets
      nothing be read or written, and a directory in the place of the user file lets
      nothing be written. */
  lemma EffectiveAfterPersist(cerf: File, user: File, mountPoint: string, owned: set<Field>, current: Fields, f: Field)
    ensures
      var baseline := Baseline(Extract(Load(cerf)), mountPoint);
      var after := Persisted(cerf, user, baseline, owned, current);
      var (was, got) := (EffectiveValues(cerf, user, mountPoint), EffectiveValues(cerf, after, mountPoint));
      && (was.None? <==> cerf.Undecodable? || user.Undecodable?)
      && (was.None? <==> got.None?) && (was.None? || user.Directory? ==> after == user)
      && (was.Some? && !user.Directory? ==>
            var now := ValueIn(got.value, f);
            && (f in owned && f in current ==>
                  (now == Some(current[f]) <==> WellTyped(f, current[f]) || ValueIn(baseline, f) == Some(current[f])))
            && (f in owned && f !in current ==> now == ValueIn(baseline, f))
            && (f !in owned ==> now == ValueIn(was.value, f))
            && (f in owned && f in Extract(Load(after)) ==>
                  f in current && (Explicit(f) || ValueIn(baseline, f) != Some(current[f]))))
  {
    if !Unreadable(cerf, user) && !user.Directory? {
      var baseline := Baseline(Extract(Load(cerf)), mountPoint);
      PersistedOverrides(cerf, user, baseline, owned, current);
      ExtractedAreWellTyped(Load(user));
      EffectiveField(baseline, Extract(Load(user)), owned, current, f);
    }
  }

  lemma NullIsNeverWellTyped(f: Field)
    ensures !WellTyped(f, Null)
  {}

  /** A text the user clears cannot override a non-empty one of the device: the empty
      string is dropped when it is written, and the device's text stays in effect. */
  lemma ClearedTextDoesNotOverride()
    ensures
      var cerf := Holds(Obj(map["guest_additions" := Obj(map["override_color_scheme" := Str("dark")])]));
      var baseline := Baseline(Extract(Load(cerf)), "");
      var after := Persisted(cerf, Missing, baseline, {ColorScheme}, map[ColorScheme := Str("")]);
      ValueIn(Effective(cerf, after, ""), ColorScheme) == Some(Str("dark"))
  {
    var obj := map["guest_additions" := Obj(map["override_color_scheme" := Str("dark")])];
    var cerf := Holds(Obj(obj));
    var baseline := Baseline(Extract(Load(cerf)), "");
    assert Load(cerf) == obj && FieldValue(obj, ColorScheme) == Some(Str("dark"));
    BaselineColour(obj);
    ClearedIsNotStored(cerf, baseline);
    LayeredValue(baseline, Extract(Load(Persisted(cerf, Missing, baseline, {ColorScheme}, map[ColorScheme := Str("")]))),
                 ColorScheme);
  }

  lemma BaselineColour(obj: Object)
    requires FieldValue(obj, ColorScheme).Some?
    ensures ValueIn(Baseline(Extract(obj), ""), ColorScheme) == FieldValue(obj, ColorScheme)
  {}

  lemma ClearedIsNotStored(cerf: File, baseline: Fields)
    requires !cerf.Undecodable?
    ensures ColorScheme !in Extract(Load(Persisted(cerf, Missing, baseline, {ColorScheme}, map[ColorScheme := Str("")])))
  {
    var current := map[ColorScheme := Str("")];
    PersistedOverrides(cerf, Missing, baseline, {ColorScheme}, current);
    StoredIs(Extract(Load(Missing)), baseline, {ColorScheme}, current, ColorScheme);
  }
}
