/** The list of bundle repositories in cerf.json and its migration to a new release
    (launcher/bundle_repositories.py, `migrate_cerf_json` in
    launcher/cerf_json_merge.py). */
module BundleRepositories {
  import opened Json
  import opened Options
  import CerfJsonMerge

  const CONFIG_KEY := "bundle_repositories"
  const SUFFIX := "/manifest.json"

  datatype Repository = Repository(url: string, enabled: bool)

  // ----- reading -----

  function UrlOf(e: Json): Option<string> {
    if e.Obj? && "url" in e.fields && e.fields["url"].Str? then Some(e.fields["url"].s) else None
  }

  /** The repository an entry stands for, if it is well formed. */
  function Readable(e: Json): Option<Repository> {
    if UrlOf(e).Some? && UrlOf(e).value != "" && "enabled" in e.fields && e.fields["enabled"].Bool? then
      Some(Repository(UrlOf(e).value, e.fields["enabled"].b))
    else None
  }

  function Urls(repos: seq<Repository>): set<string> { set r | r in repos :: r.url }

  /** One more entry: kept when it is well formed and its URL is new. */
  function AddRead(repos: seq<Repository>, e: Json): seq<Repository> {
    var r := Readable(e);
    if r.Some? && r.value.url !in Urls(repos) then repos + [r.value] else repos
  }

  /** The well-formed entries in order, the first one of each URL. */
  function ParseItems(items: seq<Json>): seq<Repository> {
    if items == [] then [] else AddRead(ParseItems(items[..|items| - 1]), items[|items| - 1])
  }

  function Parse(raw: Json): seq<Repository> { if raw.List? then ParseItems(raw.items) else [] }

  /** The entry at k is well formed and no well-formed one before it has its URL. */
  ghost predicate IsFirst(items: seq<Json>, k: nat)
    requires k < |items|
  {
    && Readable(items[k]).Some?
    && forall j :: 0 <= j < k && Readable(items[j]).Some? ==> Readable(items[j]).value.url != Readable(items[k]).value.url
  }

  /** The repositories are the first entries of their URLs, at these places. */
  ghost predicate AtPlaces(items: seq<Json>, repos: seq<Repository>, places: seq<nat>) {
    && |places| == |repos|
    && (forall i :: 0 <= i < |places| ==>
          places[i] < |items| && IsFirst(items, places[i]) && Readable(items[places[i]]) == Some(repos[i]))
    && (forall i, j :: 0 <= i < j < |places| ==> places[i] < places[j])
    && forall k :: 0 <= k < |items| && IsFirst(items, k) ==> k in places
  }

  /** Exactly the first well-formed entry of each URL is read, with its own flag, in
      the order of the list. */
  ghost predicate ReadsFirsts(raw: Json, repos: seq<Repository>) {
    if raw.List? then exists places :: AtPlaces(raw.items, repos, places) else repos == []
  }

  lemma FirstStays(items: seq<Json>, e: Json, k: nat)
    requires k < |items|
    ensures IsFirst(items + [e], k) <==> IsFirst(items, k)
  {
    var all := items + [e];
    assert forall j :: 0 <= j <= k ==> all[j] == items[j];
  }

  lemma PlaceAdded(items: seq<Json>, repos: seq<Repository>, places: seq<nat>, e: Json)
    requires AtPlaces(items, repos, places) && IsFirst(items + [e], |items|)
    ensures AtPlaces(items + [e], repos + [Readable(e).value], places + [|items|])
  {
    var (all, after) := (items + [e], places + [|items|]);
    forall i | 0 <= i < |places|
      ensures IsFirst(all, places[i])
    {
      FirstStays(items, e, places[i]);
    }
    forall k | 0 <= k < |all| && IsFirst(all, k)
      ensures k in after
    {
      if k < |items| {
        FirstStays(items, e, k);
        assert k in places;
      } else {
        assert after[|places|] == k;
      }
    }
  }

  lemma NoPlaceAdded(items: seq<Json>, repos: seq<Repository>, places: seq<nat>, e: Json)
    requires AtPlaces(items, repos, places) && !IsFirst(items + [e], |items|)
    ensures AtPlaces(items + [e], repos, places)
  {
    forall k | 0 <= k < |items|
      ensures IsFirst(items + [e], k) <==> IsFirst(items, k)
    {
      FirstStays(items, e, k);
    }
  }

  /** The URLs read are those of the well-formed entries. */
  lemma {:induction false} ReadUrls(items: seq<Json>, url: string)
    ensures
      url in Urls(ParseItems(items))
      <==> exists k :: 0 <= k < |items| && Readable(items[k]).Some? && Readable(items[k]).value.url == url
  {
    if items != [] {
      var (front, e) := (items[..|items| - 1], items[|items| - 1]);
      ReadUrls(front, url);
      assert forall k :: 0 <= k < |front| ==> front[k] == items[k];
      UrlsOfAdd(ParseItems(front), e);
      if url in Urls(ParseItems(front)) {
        var k :| 0 <= k < |front| && Readable(front[k]).Some? && Readable(front[k]).value.url == url;
        assert Readable(items[k]).value.url == url;
      }
    }
  }

  lemma UrlsOfAdd(repos: seq<Repository>, e: Json)
    ensures
      Urls(AddRead(repos, e)) == Urls(repos) + if Readable(e).Some? then {Readable(e).value.url} else {}
  {
    if Readable(e).Some? {
      UrlsOfConcat(repos, [Readable(e).value]);
      assert Urls([Readable(e).value]) == {Readable(e).value.url};
      if Readable(e).value.url in Urls(repos) {
        assert Urls(repos) + {Readable(e).value.url} == Urls(repos);
      }
    }
  }

  lemma FirstIsNew(items: seq<Json>, e: Json)
    ensures
      IsFirst(items + [e], |items|)
      <==> Readable(e).Some? && Readable(e).value.url !in Urls(ParseItems(items))
  {
    var all := items + [e];
    assert all[|items|] == e && forall k :: 0 <= k < |items| ==> all[k] == items[k];
    if Readable(e).Some? {
      ReadUrls(items, Readable(e).value.url);
    }
  }

  lemma {:induction false} ParsedItemsAreFirsts(items: seq<Json>)
    ensures exists places :: AtPlaces(items, ParseItems(items), places)
  {
    if items == [] {
      assert AtPlaces(items, ParseItems(items), []);
    } else {
      var (front, e) := (items[..|items| - 1], items[|items| - 1]);
      ParsedItemsAreFirsts(front);
      var places :| AtPlaces(front, ParseItems(front), places);
      assert items == front + [e];
      FirstIsNew(front, e);
      if IsFirst(items, |front|) {
        PlaceAdded(front, ParseItems(front), places, e);
        assert ParseItems(items) == ParseItems(front) + [Readable(e).value];
      } else {
        NoPlaceAdded(front, ParseItems(front), places, e);
        assert ParseItems(items) == ParseItems(front);
      }
    }
  }

  lemma FirstsDiffer(items: seq<Json>, repos: seq<Repository>, places: seq<nat>, i: nat, j: nat)
    requires AtPlaces(items, repos, places) && i < j < |repos|
    ensures repos[i].url != repos[j].url
  {
    assert IsFirst(items, places[j]) && places[i] < places[j];
  }

  /** What the reader returns, said without its loop: the first well-formed entry of
      each URL with its own flag, in order, and so no URL twice. */
  lemma ParsedAreFirsts(raw: Json)
    ensures ReadsFirsts(raw, Parse(raw))
    ensures forall i, j :: 0 <= i < j < |Parse(raw)| ==> Parse(raw)[i].url != Parse(raw)[j].url
  {
    if raw.List? {
      ParsedItemsAreFirsts(raw.items);
      var places :| AtPlaces(raw.items, Parse(raw), places);
      forall i, j | 0 <= i < j < |Parse(raw)|
        ensures Parse(raw)[i].url != Parse(raw)[j].url
      {
        FirstsDiffer(raw.items, Parse(raw), places, i, j);
      }
    }
  }

  method ParseRepositories(raw: Json) returns (repos: seq<Repository>)
    ensures repos == Parse(raw) && ReadsFirsts(raw, repos)
  {
    ParsedAreFirsts(raw);
    repos := [];
    if raw.List? {
      repos := ParseEntries(raw.items);
    }
  }

  method ParseEntries(items: seq<Json>) returns (repos: seq<Repository>)
    ensures repos == ParseItems(items)
  {
    repos := [];
    var seen: set<string> := {};
    for i := 0 to |items|
      invariant repos == ParseItems(items[..i]) && seen == Urls(repos)
    {
      assert items[..i + 1][..i] == items[..i];
      UrlsOfAdd(repos, items[i]);
      var item := items[i];
      if !item.Obj? {
        continue;
      }
      var (url, enabled) := (Get(item.fields, "url"), Get(item.fields, "enabled"));
      if url.None? || !url.value.Str? || url.value.s == "" || enabled.None? || !enabled.value.Bool? {
        continue;
      }
      if url.value.s in seen {
        continue;
      }
      seen := seen + {url.value.s};
      repos := repos + [Repository(url.value.s, enabled.value.b)];
    }
    assert items[..|items|] == items;
  }

  // ----- stripping the manifest name -----

  predicate EndsWithManifest(url: string) {
    |url| >= |SUFFIX| && url[|url| - |SUFFIX|..] == SUFFIX
  }

  function StripUrl(e: Json): Json {
    if UrlOf(e).Some? && EndsWithManifest(UrlOf(e).value) then
      Obj(e.fields["url" := Str(UrlOf(e).value[..|UrlOf(e).value| - |SUFFIX|])])
    else e
  }

  function StripItems(items: seq<Json>): seq<Json> {
    seq(|items|, i requires 0 <= i < |items| => StripUrl(items[i]))
  }

  function Strip(value: Json): Json { if value.List? then List(StripItems(value.items)) else value }

  method StripManifest(value: Json) returns (stripped: Json)
    ensures stripped == Strip(value)
  {
    if !value.List? {
      return value;
    }
    var out := [];
    for i := 0 to |value.items|
      invariant out == StripItems(value.items[..i])
    {
      var e := value.items[i];
      if e.Obj? && "url" in e.fields && e.fields["url"].Str? && EndsWithManifest(e.fields["url"].s) {
        var url := e.fields["url"].s;
        e := Obj(e.fields["url" := Str(url[..|url| - |SUFFIX|])]);
      }
      out := out + [e];
    }
    assert value.items[..|value.items|] == value.items;
    stripped := List(out);
  }

  // ----- merging -----

  /** Every string URL an object of the list carries, well formed or not. */
  function ClaimedUrls(items: seq<Json>): set<string> {
    set e | e in items && UrlOf(e).Some? :: UrlOf(e).value
  }

  function Objects(items: seq<Json>): seq<Json> {
    if items == [] then []
    else
      var (front, e) := (Objects(items[..|items| - 1]), items[|items| - 1]);
      if e.Obj? then front + [e] else front
  }

  predicate IsNew(e: Json, claimed: set<string>) {
    e.Obj? && (UrlOf(e).Some? ==> UrlOf(e).value !in claimed)
  }

  function NewEntries(items: seq<Json>, claimed: set<string>): seq<Json> {
    if items == [] then []
    else
      var (front, e) := (NewEntries(items[..|items| - 1], claimed), items[|items| - 1]);
      if IsNew(e, claimed) then front + [e] else front
  }

  function Merge(mine: Json, shipped: Json): Json {
    if !mine.List? then shipped
    else
      List(Objects(mine.items)
           + if shipped.List? then NewEntries(shipped.items, ClaimedUrls(Objects(mine.items))) else [])
  }

  method MergeRepositories(mine: Json, shipped: Json) returns (merged: Json)
    ensures merged == Merge(mine, shipped)
  {
    if !mine.List? {
      return shipped;
    }
    var out := [];
    for i := 0 to |mine.items|
      invariant out == Objects(mine.items[..i])
    {
      assert mine.items[..i + 1][..i] == mine.items[..i];
      if mine.items[i].Obj? {
        out := out + [mine.items[i]];
      }
    }
    assert mine.items[..|mine.items|] == mine.items;
    var oldUrls := ClaimedUrls(out);
    if shipped.List? {
      ghost var start := out;
      for i := 0 to |shipped.items|
        invariant out == start + NewEntries(shipped.items[..i], oldUrls)
      {
        assert shipped.items[..i + 1][..i] == shipped.items[..i];
        if IsNew(shipped.items[i], oldUrls) {
          out := out + [shipped.items[i]];
        }
      }
      assert shipped.items[..|shipped.items|] == shipped.items;
    }
    merged := List(out);
  }

  // ----- what is read after a migration -----

  function Unclaimed(repos: seq<Repository>, claimed: set<string>): seq<Repository> {
    if repos == [] then []
    else
      var (front, r) := (Unclaimed(repos[..|repos| - 1], claimed), repos[|repos| - 1]);
      if r.url in claimed then front else front + [r]
  }

  lemma {:induction false} ParseIgnoresNonObjects(items: seq<Json>)
    ensures ParseItems(Objects(items)) == ParseItems(items)
    ensures ClaimedUrls(Objects(items)) == ClaimedUrls(items)
  {
    if items != [] {
      var (front, e) := (items[..|items| - 1], items[|items| - 1]);
      ParseIgnoresNonObjects(front);
      assert items == front + [e];
      if e.Obj? {
        assert Objects(items)[..|Objects(items)| - 1] == Objects(front);
        assert forall x :: x in Objects(items) <==> x in Objects(front) || x == e;
      }
      ClaimedOfAppend(front, e);
      ClaimedOfAppend(Objects(front), e);
    }
  }

  lemma ClaimedOfAppend(items: seq<Json>, e: Json)
    ensures
      ClaimedUrls(items + [e])
      == ClaimedUrls(items) + (if UrlOf(e).Some? then {UrlOf(e).value} else {})
  {}

  lemma {:induction false} ReadUrlsAreClaimed(items: seq<Json>)
    ensures Urls(ParseItems(items)) <= ClaimedUrls(items)
  {
    if items != [] {
      ReadUrlsAreClaimed(items[..|items| - 1]);
      ClaimedOfAppend(items[..|items| - 1], items[|items| - 1]);
      assert items == items[..|items| - 1] + [items[|items| - 1]];
    }
  }

  lemma {:induction false} UrlsOfUnclaimed(repos: seq<Repository>, claimed: set<string>)
    ensures Urls(Unclaimed(repos, claimed)) == Urls(repos) - claimed
  {
    if repos != [] {
      UrlsOfUnclaimed(repos[..|repos| - 1], claimed);
      var (front, r) := (repos[..|repos| - 1], repos[|repos| - 1]);
      assert repos == front + [r];
      assert Urls(repos) == Urls(front) + {r.url};
      var u := Unclaimed(front, claimed);
      assert Urls(u + [r]) == Urls(u) + {r.url};
    }
  }

  lemma ParseOfAppend(items: seq<Json>, e: Json)
    ensures ParseItems(items + [e]) == AddRead(ParseItems(items), e)
  {
    assert (items + [e])[..|items|] == items;
  }

  lemma UnclaimedOfAppend(repos: seq<Repository>, r: Repository, claimed: set<string>)
    ensures
      Unclaimed(repos + [r], claimed)
      == if r.url in claimed then Unclaimed(repos, claimed) else Unclaimed(repos, claimed) + [r]
  {
    assert (repos + [r])[..|repos|] == repos;
  }

  lemma UrlsOfConcat(a: seq<Repository>, b: seq<Repository>)
    ensures Urls(a + b) == Urls(a) + Urls(b)
  {}

  lemma AddReadBehind(own: seq<Repository>, read: seq<Repository>, e: Json, claimed: set<string>)
    requires Urls(own) <= claimed
    ensures
      own + Unclaimed(AddRead(read, e), claimed)
      == var all := own + Unclaimed(read, claimed); if IsNew(e, claimed) then AddRead(all, e) else all
  {
    var r := Readable(e);
    if r.Some? {
      UrlsBehind(own, read, r.value.url, claimed);
      UnclaimedOfAppend(read, r.value, claimed);
      if r.value.url !in Urls(read) && r.value.url !in claimed {
        assert own + (Unclaimed(read, claimed) + [r.value]) == own + Unclaimed(read, claimed) + [r.value];
      }
    }
  }

  /** An unclaimed URL is new behind the user's own exactly when it is new by itself. */
  lemma UrlsBehind(own: seq<Repository>, read: seq<Repository>, url: string, claimed: set<string>)
    requires Urls(own) <= claimed
    ensures url !in claimed ==> (url in Urls(own + Unclaimed(read, claimed)) <==> url in Urls(read))
  {
    UrlsOfUnclaimed(read, claimed);
    UrlsOfConcat(own, Unclaimed(read, claimed));
  }

  /** Appending entries whose URLs are all unclaimed reads as appending what they
      would be read as, less the claimed ones. */
  lemma {:induction false} ParseOfMerged(mine: seq<Json>, shipped: seq<Json>, claimed: set<string>)
    requires Urls(ParseItems(mine)) <= claimed
    ensures ParseItems(mine + NewEntries(shipped, claimed)) == ParseItems(mine) + Unclaimed(ParseItems(shipped), claimed)
    decreases |shipped|
  {
    if shipped == [] {
      assert mine + [] == mine;
    } else {
      var (front, e) := (shipped[..|shipped| - 1], shipped[|shipped| - 1]);
      ParseOfMerged(mine, front, claimed);
      AddReadBehind(ParseItems(mine), ParseItems(front), e, claimed);
      ParseOfAppend(mine + NewEntries(front, claimed), e);
      assert mine + (NewEntries(front, claimed) + [e]) == mine + NewEntries(front, claimed) + [e];
    }
  }

  /** After a migration the reader finds the user's repositories, stripped, in their
      order and with their own flags, and then the shipped ones whose URL no object
      of the user's list carries. */
  lemma ReadAfterMerge(mine: Json, shipped: Json)
    requires mine.List?
    ensures
      Parse(Merge(Strip(mine), shipped))
      == Parse(Strip(mine)) + Unclaimed(Parse(shipped), ClaimedUrls(StripItems(mine.items)))
  {
    var items := StripItems(mine.items);
    ParseIgnoresNonObjects(items);
    ReadUrlsAreClaimed(items);
    if shipped.List? {
      ParseOfMerged(Objects(items), shipped.items, ClaimedUrls(items));
    } else {
      assert Objects(items) + [] == Objects(items);
    }
  }

  /** A shipped repository is found after the migration unless a malformed entry of
      the user's carries its URL: that entry hides it. */
  lemma ShippedIsFound(mine: Json, shipped: Json, url: string)
    requires mine.List? && url in Urls(Parse(shipped))
    ensures
      url in Urls(Parse(Merge(Strip(mine), shipped)))
      <==> url in Urls(Parse(Strip(mine))) || url !in ClaimedUrls(StripItems(mine.items))
  {
    ReadAfterMerge(mine, shipped);
    UrlsOfUnclaimed(Parse(shipped), ClaimedUrls(StripItems(mine.items)));
    var (a, b) := (Parse(Strip(mine)), Unclaimed(Parse(shipped), ClaimedUrls(StripItems(mine.items))));
    UrlsOfConcat(a, b);
  }

  // ----- migrating twice -----

  function ValueAt(obj: Object): Json { if CONFIG_KEY in obj then obj[CONFIG_KEY] else Null }

  /** `migrate_cerf_json` on parsed files: the installed file after an update. */
  function Migrated(installed: Option<Object>, shipped: Object): Object {
    if installed.None? then shipped
    else
      CerfJsonMerge.MergeOld(Obj(installed.value), Obj(shipped))
      .fields[CONFIG_KEY := Merge(Strip(ValueAt(installed.value)), ValueAt(shipped))]
  }

  method MigrateCerfJson(installed: Option<Object>, shipped: Object) returns (merged: Object)
    ensures merged == Migrated(installed, shipped)
  {
    if installed.None? {
      return shipped;
    }
    var tree := CerfJsonMerge.MergePreservingOld(Obj(installed.value), Obj(shipped));
    var stripped := StripManifest(ValueAt(installed.value));
    var repos := MergeRepositories(stripped, ValueAt(shipped));
    merged := tree.fields[CONFIG_KEY := repos];
  }

  /** The file after an update: the shipped one if none was installed; else the merged
      tree outside the list of repositories, and a list in which the reader finds the
      user's repositories and then the unclaimed shipped ones, or the shipped ones if
      the user has no list. */
  lemma MigratedReads(installed: Option<Object>, shipped: Object, key: string)
    ensures installed.None? ==> Migrated(installed, shipped) == shipped
    ensures
      installed.Some? ==>
        var (mine, merged) := (installed.value, Migrated(installed, shipped));
        && (key != CONFIG_KEY ==>
              Get(merged, key) == if key !in mine then Get(shipped, key)
                                  else if key !in shipped then Get(mine, key)
                                  else Some(CerfJsonMerge.MergeOld(mine[key], shipped[key])))
        && CONFIG_KEY in merged
        && Parse(merged[CONFIG_KEY])
           == if ValueAt(mine).List?
              then Parse(Strip(ValueAt(mine))) + Unclaimed(Parse(ValueAt(shipped)), ClaimedUrls(StripItems(ValueAt(mine).items)))
              else Parse(ValueAt(shipped))
  {
    if installed.Some? && ValueAt(installed.value).List? {
      ReadAfterMerge(ValueAt(installed.value), ValueAt(shipped));
    }
  }

  /** A list of repositories that one more migration leaves alone. */
  predicate Settled(repos: Json, shipped: Json) {
    repos.List? ==>
      && (forall e :: e in repos.items ==> e.Obj? && (UrlOf(e).Some? ==> !EndsWithManifest(UrlOf(e).value)))
      && (shipped.List? ==> forall e :: e in shipped.items && e.Obj? ==> UrlOf(e).Some?)
  }

  lemma {:induction false} ObjectsFacts(items: seq<Json>)
    ensures |Objects(items)| <= |items|
    ensures Objects(items) == items <==> forall e :: e in items ==> e.Obj?
    ensures forall e :: e in Objects(items) <==> e in items && e.Obj?
  {
    if items != [] {
      ObjectsFacts(items[..|items| - 1]);
      assert items == items[..|items| - 1] + [items[|items| - 1]];
    }
  }

  lemma {:induction false} NewEntriesFacts(items: seq<Json>, claimed: set<string>)
    ensures forall e :: e in NewEntries(items, claimed) <==> e in items && IsNew(e, claimed)
  {
    if items != [] {
      NewEntriesFacts(items[..|items| - 1], claimed);
    }
  }

  lemma StripChanges(items: seq<Json>)
    ensures
      StripItems(items) == items
      <==> forall e :: e in items && UrlOf(e).Some? ==> !EndsWithManifest(UrlOf(e).value)
  {
    if StripItems(items) == items {
      forall e | e in items && UrlOf(e).Some?
        ensures !EndsWithManifest(UrlOf(e).value)
      {
        var i :| 0 <= i < |items| && items[i] == e;
        assert StripItems(items)[i] == StripUrl(e);
      }
    }
  }

  ghost predicate CleanUrl(e: Json) { UrlOf(e).Some? && !EndsWithManifest(UrlOf(e).value) }

  /** What must hold of the user's list and the shipped one for a second migration to
      change nothing: no stripped URL still ends in the manifest name, and every
      shipped object has a URL that the user has too or that does not end in it.  A
      user without a list takes the shipped one over, which must then hold nothing
      but objects with such URLs. */
  ghost predicate SettlesAtOnce(mine: Json, shipped: Json) {
    if mine.List? then
      var claimed := ClaimedUrls(StripItems(mine.items));
      && (forall u :: u in claimed ==> !EndsWithManifest(u))
      && (shipped.List? ==>
            forall e :: e in shipped.items && e.Obj? ==>
              UrlOf(e).Some? && (UrlOf(e).value in claimed || CleanUrl(e)))
    else shipped.List? ==> forall e :: e in shipped.items ==> e.Obj? && CleanUrl(e)
  }

  lemma SettledFromInputs(mine: Json, shipped: Json)
    ensures Settled(Merge(Strip(mine), shipped), shipped) <==> SettlesAtOnce(mine, shipped)
  {
    if mine.List? {
      SettledFromList(StripItems(mine.items), shipped);
      ParseIgnoresNonObjects(StripItems(mine.items));
    }
  }

  /** What a merged list holds. */
  lemma MergedEntries(items: seq<Json>, shipped: Json, e: Json)
    ensures
      e in Objects(items) + (if shipped.List? then NewEntries(shipped.items, ClaimedUrls(items)) else [])
      <==> (e in items && e.Obj?) || (shipped.List? && e in shipped.items && IsNew(e, ClaimedUrls(items)))
  {
    ObjectsFacts(items);
    if shipped.List? {
      NewEntriesFacts(shipped.items, ClaimedUrls(items));
    }
  }

  lemma SettledFromList(items: seq<Json>, shipped: Json)
    ensures
      var claimed := ClaimedUrls(items);
      var merged := Objects(items) + (if shipped.List? then NewEntries(shipped.items, claimed) else []);
      Settled(List(merged), shipped)
      <==>
        && (forall u :: u in claimed ==> !EndsWithManifest(u))
        && (shipped.List? ==>
              forall e :: e in shipped.items && e.Obj? ==>
                UrlOf(e).Some? && (UrlOf(e).value in claimed || CleanUrl(e)))
  {
    var claimed := ClaimedUrls(items);
    var merged := Objects(items) + (if shipped.List? then NewEntries(shipped.items, claimed) else []);
    forall e
      ensures e in merged
        <==> (e in items && e.Obj?) || (shipped.List? && e in shipped.items && IsNew(e, claimed))
    {
      MergedEntries(items, shipped, e);
    }
    OwnUrls(items, merged, claimed);
  }

  /** The user's own objects carry exactly the claimed URLs. */
  lemma OwnUrls(items: seq<Json>, all: seq<Json>, claimed: set<string>)
    requires claimed == ClaimedUrls(items) && forall e :: e in items && e.Obj? ==> e in all
    ensures
      (forall e :: e in all && UrlOf(e).Some? ==> !EndsWithManifest(UrlOf(e).value))
      ==> forall u :: u in claimed ==> !EndsWithManifest(u)
  {
    if forall e :: e in all && UrlOf(e).Some? ==> !EndsWithManifest(UrlOf(e).value) {
      forall u | u in claimed
        ensures !EndsWithManifest(u)
      {
        var e :| e in items && UrlOf(e).Some? && UrlOf(e).value == u;
        assert e in all;
      }
    }
  }

  /** Merging the shipped list into the result of the first merge changes nothing
      exactly under that condition on the two lists. */
  lemma MergeSettles(mine: Json, shipped: Json)
    ensures
      var once := Merge(Strip(mine), shipped);
      Merge(Strip(once), shipped) == once <==> SettlesAtOnce(mine, shipped)
  {
    MergeSettlesOnResult(mine, shipped);
    SettledFromInputs(mine, shipped);
  }

  lemma MergeSettlesOnResult(mine: Json, shipped: Json)
    ensures
      var once := Merge(Strip(mine), shipped);
      Merge(Strip(once), shipped) == once <==> Settled(once, shipped)
  {
    var once := Merge(Strip(mine), shipped);
    if once.List? {
      var items := StripItems(once.items);
      StripChanges(once.items);
      ObjectsFacts(items);
      var twice := Merge(Strip(once), shipped);
      if shipped.List? {
        NewEntriesFacts(shipped.items, ClaimedUrls(Objects(items)));
      }
      if Settled(once, shipped) {
        AllShippedAreClaimed(mine, shipped);
      } else if twice == once {
        SameImpliesSettled(once, shipped);
      }
    }
  }

  /** After a merge every shipped URL is carried by the list. */
  lemma ShippedUrlIsClaimed(mine: Json, shipped: Json, e: Json)
    requires shipped.List? && e in shipped.items && UrlOf(e).Some?
    requires Merge(Strip(mine), shipped).List?
    ensures UrlOf(e).value in ClaimedUrls(Merge(Strip(mine), shipped).items)
  {
    var once := Merge(Strip(mine), shipped);
    if mine.List? {
      var before := Objects(StripItems(mine.items));
      NewEntriesFacts(shipped.items, ClaimedUrls(before));
      if IsNew(e, ClaimedUrls(before)) {
        assert e in once.items;
      } else {
        var x :| x in before && UrlOf(x) == UrlOf(e);
        assert x in once.items;
      }
    }
  }

  lemma NoNewEntries(items: seq<Json>, claimed: set<string>)
    requires forall e :: e in items && e.Obj? ==> UrlOf(e).Some? && UrlOf(e).value in claimed
    ensures NewEntries(items, claimed) == []
  {
    NewEntriesFacts(items, claimed);
    assert forall e :: e !in NewEntries(items, claimed);
  }

  lemma AllShippedAreClaimed(mine: Json, shipped: Json)
    requires Merge(Strip(mine), shipped).List? && Settled(Merge(Strip(mine), shipped), shipped)
    ensures
      var once := Merge(Strip(mine), shipped);
      Merge(Strip(once), shipped) == once
  {
    var once := Merge(Strip(mine), shipped);
    StripChanges(once.items);
    ObjectsFacts(once.items);
    if shipped.List? {
      forall e | e in shipped.items && e.Obj?
        ensures UrlOf(e).Some? && UrlOf(e).value in ClaimedUrls(once.items)
      {
        ShippedUrlIsClaimed(mine, shipped, e);
      }
      NoNewEntries(shipped.items, ClaimedUrls(once.items));
    }
    assert once.items + [] == once.items;
  }

  lemma SameImpliesSettled(once: Json, shipped: Json)
    requires once.List? && Merge(Strip(once), shipped) == once
    ensures Settled(once, shipped)
  {
    var items := StripItems(once.items);
    ObjectsFacts(items);
    var extra := if shipped.List? then NewEntries(shipped.items, ClaimedUrls(Objects(items))) else [];
    assert once.items == Objects(items) + extra;
    if shipped.List? {
      NewEntriesFacts(shipped.items, ClaimedUrls(Objects(items)));
    }
    forall e | e in once.items
      ensures e.Obj?
    {
      assert e in Objects(items) || e in extra;
    }
    forall e | e in items
      ensures e.Obj?
    {
      var i :| 0 <= i < |items| && items[i] == e;
      assert once.items[i] in once.items;
    }
    assert Objects(items) == items && |items| == |once.items|;
    assert extra == [];
    StripChanges(once.items);
  }

  /** Migrating to the same release again changes nothing exactly under the same
      condition on the two repository lists. */
  lemma MigrationSettles(mine: Object, shipped: Object)
    ensures
      var once := Migrated(Some(mine), shipped);
      Migrated(Some(once), shipped) == once <==> SettlesAtOnce(ValueAt(mine), ValueAt(shipped))
  {
    var once := Migrated(Some(mine), shipped);
    var tree := CerfJsonMerge.MergeOld(Obj(mine), Obj(shipped)).fields;
    MergeSettles(ValueAt(mine), ValueAt(shipped));
    CerfJsonMerge.MergeIsIdempotent(Obj(mine), Obj(shipped));
    var again := CerfJsonMerge.MergeOld(Obj(tree), Obj(shipped)).fields;
    assert again == tree;
    var twice := Migrated(Some(once), shipped);
    forall k | k in once && k != CONFIG_KEY
      ensures k in twice && twice[k] == once[k]
    {
      assert k in again && again[k] == tree[k];
    }
    assert twice.Keys == once.Keys;
    assert twice == once <==> twice[CONFIG_KEY] == once[CONFIG_KEY];
  }
}
