/** The two recursive merges of configuration trees, with opposite bias:
    `merge_preserving_old` (launcher/cerf_json_merge.py) keeps what the user has and
    adds what a new release ships; `_merge_layer` (launcher/cerf_user_json.py) lets
    an override layer win. */
module CerfJsonMerge {
  import opened Json
  import opened Options

  // ----- merge_preserving_old -----

  /** The old list, then every new item it does not have yet. */
  function AppendMissing(mine: seq<Json>, shipped: seq<Json>): seq<Json>
    decreases |shipped|
  {
    if shipped == [] then mine
    else
      var front := AppendMissing(mine, shipped[..|shipped| - 1]);
      var item := shipped[|shipped| - 1];
      if item in front then front else front + [item]
  }

  function MergeOld(mine: Json, shipped: Json): Json
    decreases shipped
  {
    if mine.Obj? && shipped.Obj? then
      Obj(map k | k in mine.fields.Keys + shipped.fields.Keys ::
            if k !in shipped.fields then mine.fields[k]
            else if k !in mine.fields then shipped.fields[k]
            else MergeOld(mine.fields[k], shipped.fields[k]))
    else if mine.List? && shipped.List? then List(AppendMissing(mine.items, shipped.items))
    else mine
  }

  method MergePreservingOld(mine: Json, shipped: Json) returns (merged: Json)
    ensures merged == MergeOld(mine, shipped)
    decreases shipped
  {
    if mine.Obj? && shipped.Obj? {
      var m := mine.fields;
      var todo := shipped.fields.Keys;
      while todo != {}
        invariant todo <= shipped.fields.Keys
        invariant m.Keys == mine.fields.Keys + (shipped.fields.Keys - todo)
        invariant forall k :: k in m ==>
          m[k] == (if k in todo || k !in shipped.fields then mine.fields[k]
                   else if k !in mine.fields then shipped.fields[k]
                   else MergeOld(mine.fields[k], shipped.fields[k]))
        decreases todo
      {
        var key :| key in todo;
        if key in m {
          var value := MergePreservingOld(m[key], shipped.fields[key]);
          m := m[key := value];
        } else {
          m := m[key := shipped.fields[key]];
        }
        todo := todo - {key};
      }
      return Obj(m);
    }
    if mine.List? && shipped.List? {
      var items := mine.items;
      for i := 0 to |shipped.items|
        invariant items == AppendMissing(mine.items, shipped.items[..i])
      {
        assert shipped.items[..i + 1][..i] == shipped.items[..i];
        if shipped.items[i] !in items {
          items := items + [shipped.items[i]];
        }
      }
      assert shipped.items[..|shipped.items|] == shipped.items;
      return List(items);
    }
    return mine;
  }

  /** The item is in neither the old list nor the new one before. */
  predicate IsMissing(mine: seq<Json>, shipped: seq<Json>, i: nat)
    requires i < |shipped|
  {
    shipped[i] !in mine && shipped[i] !in shipped[..i]
  }

  /** The places of the new list, in order, whose items are added. */
  ghost predicate MissingAt(mine: seq<Json>, shipped: seq<Json>, places: seq<nat>) {
    && (forall j :: 0 <= j < |places| ==> places[j] < |shipped|)
    && (forall i, j :: 0 <= i < j < |places| ==> places[i] < places[j])
    && forall i: nat :: i < |shipped| ==> (i in places <==> IsMissing(mine, shipped, i))
  }

  lemma {:induction false} MergedItems(mine: seq<Json>, shipped: seq<Json>, x: Json)
    ensures x in AppendMissing(mine, shipped) <==> x in mine || x in shipped
  {
    if shipped != [] {
      MergedItems(mine, shipped[..|shipped| - 1], x);
    }
  }

  lemma MissingMore(mine: seq<Json>, front: seq<Json>, x: Json, places: seq<nat>)
    requires MissingAt(mine, front, places)
    ensures
      var shipped := front + [x];
      if IsMissing(mine, shipped, |front|) then MissingAt(mine, shipped, places + [|front|]) else MissingAt(mine, shipped, places)
  {
    var shipped := front + [x];
    forall i: nat | i < |front|
      ensures IsMissing(mine, shipped, i) <==> IsMissing(mine, front, i)
    {
      assert shipped[i] == front[i] && shipped[..i] == front[..i];
    }
    forall i: nat | i < |shipped|
      ensures i in places + [|front|] <==> i in places || i == |front|
    {}
  }

  /** Merging lists: the old list, then each item of the new one that it lacks, once, in
      the new list's order. */
  lemma {:induction false} MissingInOrder(mine: seq<Json>, shipped: seq<Json>) returns (places: seq<nat>)
    ensures MissingAt(mine, shipped, places)
    ensures
      AppendMissing(mine, shipped)
      == mine + seq(|places|, j requires 0 <= j < |places| => shipped[places[j]])
  {
    places := [];
    if shipped != [] {
      var (front, x) := (shipped[..|shipped| - 1], shipped[|shipped| - 1]);
      places := MissingInOrder(mine, front);
      assert shipped == front + [x];
      assert forall j :: 0 <= j < |places| ==> shipped[places[j]] == front[places[j]];
      MissingMore(mine, front, x, places);
      MergedItems(mine, front, x);
      if IsMissing(mine, shipped, |front|) {
        places := places + [|front|];
      }
    }
  }

  // ----- _merge_layer -----

  function MergeLayer(base: Object, over: Object): Object
    decreases Obj(over)
  {
    map k | k in base.Keys + over.Keys ::
      if k !in over then base[k]
      else if over[k].Obj? && k in base && base[k].Obj? then Obj(MergeLayer(base[k].fields, over[k].fields))
      else over[k]
  }

  method MergeLayers(base: Object, over: Object) returns (out: Object)
    ensures out == MergeLayer(base, over)
    decreases Obj(over)
  {
    out := base;
    var todo := over.Keys;
    while todo != {}
      invariant todo <= over.Keys
      invariant out.Keys == base.Keys + (over.Keys - todo)
      invariant forall k :: k in out ==> out[k] == if k in todo then base[k] else MergeLayer(base, over)[k]
      decreases todo
    {
      var key :| key in todo;
      var value := over[key];
      if value.Obj? && key in out && out[key].Obj? {
        var inner := MergeLayers(out[key].fields, value.fields);
        out := out[key := Obj(inner)];
      } else {
        out := out[key := value];
      }
      todo := todo - {key};
    }
  }

  // ----- lists -----

  lemma {:induction false} AppendMissingFacts(mine: seq<Json>, shipped: seq<Json>)
    ensures mine <= AppendMissing(mine, shipped)
    ensures forall x :: x in AppendMissing(mine, shipped) <==> x in mine || x in shipped
    decreases |shipped|
  {
    if shipped != [] {
      AppendMissingFacts(mine, shipped[..|shipped| - 1]);
    }
  }

  lemma {:induction false} AppendNothing(mine: seq<Json>, shipped: seq<Json>)
    requires forall x :: x in shipped ==> x in mine
    ensures AppendMissing(mine, shipped) == mine
    decreases |shipped|
  {
    if shipped != [] {
      var front := shipped[..|shipped| - 1];
      assert forall x :: x in front ==> x in shipped;
      AppendNothing(mine, front);
    }
  }

  // ----- what the merge keeps and what it adds -----

  /** Every value of the old tree survives at its path: a scalar as it is, a list as
      a prefix, an object as an object with at least its keys. */
  lemma {:induction false} OldIsKept(mine: Json, shipped: Json, path: seq<string>)
    requires Lookup(mine, path).Some?
    ensures
      var (was, now) := (Lookup(mine, path).value, Lookup(MergeOld(mine, shipped), path));
      && now.Some?
      && (!was.Obj? && !was.List? ==> now.value == was)
      && (was.List? ==> now.value.List? && was.items <= now.value.items)
      && (was.Obj? ==> now.value.Obj? && was.fields.Keys <= now.value.fields.Keys)
    decreases path
  {
    if path == [] {
      if mine.List? && shipped.List? {
        AppendMissingFacts(mine.items, shipped.items);
      }
    } else if shipped.Obj? && path[0] in shipped.fields {
      OldIsKept(mine.fields[path[0]], shipped.fields[path[0]], path[1..]);
    }
  }

  /** Nothing appears at a new path but what the new release ships there. */
  lemma {:induction false} OnlyShippedIsAdded(mine: Json, shipped: Json, path: seq<string>)
    requires Lookup(mine, path).None?
    ensures
      Lookup(MergeOld(mine, shipped), path).Some? ==>
        Lookup(MergeOld(mine, shipped), path) == Lookup(shipped, path)
    decreases path
  {
    if path != [] && mine.Obj? && shipped.Obj? && path[0] in mine.fields && path[0] in shipped.fields {
      OnlyShippedIsAdded(mine.fields[path[0]], shipped.fields[path[0]], path[1..]);
    }
  }

  /** Every key the new release ships is there after the merge, as long as the user's
      tree has objects on the way to it. */
  lemma {:induction false} ShippedIsAdded(mine: Json, shipped: Json, path: seq<string>)
    requires Lookup(shipped, path).Some?
    requires forall n :: 0 <= n < |path| && Lookup(mine, path[..n]).Some? ==> Lookup(mine, path[..n]).value.Obj?
    ensures Lookup(MergeOld(mine, shipped), path).Some?
    decreases path
  {
    if path != [] {
      assert Lookup(mine, path[..0]) == Some(mine);
      if path[0] in mine.fields {
        forall n | 0 <= n < |path[1..]| && Lookup(mine.fields[path[0]], path[1..][..n]).Some?
          ensures Lookup(mine.fields[path[0]], path[1..][..n]).value.Obj?
        {
          assert path[..n + 1][1..] == path[1..][..n] && path[..n + 1][0] == path[0];
          assert Lookup(mine, path[..n + 1]) == Lookup(mine.fields[path[0]], path[1..][..n]);
        }
        ShippedIsAdded(mine.fields[path[0]], shipped.fields[path[0]], path[1..]);
      }
    }
  }

  // ----- migrating twice -----

  lemma {:induction false} MergeSelf(j: Json)
    ensures MergeOld(j, j) == j
  {
    if j.Obj? {
      forall k | k in j.fields
        ensures MergeOld(j.fields[k], j.fields[k]) == j.fields[k]
      {
        MergeSelf(j.fields[k]);
      }
    } else if j.List? {
      AppendNothing(j.items, j.items);
    }
  }

  /** Merging the same release in again changes nothing. */
  lemma {:induction false} MergeIsIdempotent(mine: Json, shipped: Json)
    ensures MergeOld(MergeOld(mine, shipped), shipped) == MergeOld(mine, shipped)
    decreases shipped
  {
    var once := MergeOld(mine, shipped);
    if mine.Obj? && shipped.Obj? {
      forall k | k in shipped.fields
        ensures MergeOld(once.fields[k], shipped.fields[k]) == once.fields[k]
      {
        if k in mine.fields {
          MergeIsIdempotent(mine.fields[k], shipped.fields[k]);
        } else {
          MergeSelf(shipped.fields[k]);
        }
      }
      assert MergeOld(once, shipped).fields == once.fields;
    } else if mine.List? && shipped.List? {
      AppendMissingFacts(mine.items, shipped.items);
      AppendNothing(once.items, shipped.items);
    }
  }

  // ----- the two merges compared -----

  /** No list of the old tree gains an item from the new one. */
  predicate NoListGain(mine: Json, shipped: Json)
    decreases shipped
  {
    if mine.Obj? && shipped.Obj? then
      forall k :: k in mine.fields && k in shipped.fields ==> NoListGain(mine.fields[k], shipped.fields[k])
    else
      mine.List? && shipped.List? ==> forall x :: x in shipped.items ==> x in mine.items
  }

  function Swapped(mine: Json, shipped: Json): Json {
    if mine.Obj? && shipped.Obj? then Obj(MergeLayer(shipped.fields, mine.fields)) else mine
  }

  /** The two merges are each other with the arguments swapped exactly when no list
      gains an item: lists are the only thing they treat differently. */
  lemma {:induction false} MergesAgree(mine: Json, shipped: Json)
    ensures MergeOld(mine, shipped) == Swapped(mine, shipped) <==> NoListGain(mine, shipped)
    decreases shipped
  {
    if mine.Obj? && shipped.Obj? {
      var (a, b) := (MergeOld(mine, shipped).fields, MergeLayer(shipped.fields, mine.fields));
      forall k | k in mine.fields && k in shipped.fields
        ensures a[k] == b[k] <==> NoListGain(mine.fields[k], shipped.fields[k])
      {
        MergesAgree(mine.fields[k], shipped.fields[k]);
      }
      assert a.Keys == b.Keys;
      assert a == b <==> forall k :: k in mine.fields && k in shipped.fields ==> a[k] == b[k];
    } else if mine.List? && shipped.List? {
      AppendMissingFacts(mine.items, shipped.items);
      if NoListGain(mine, shipped) {
        AppendNothing(mine.items, shipped.items);
      }
    }
  }

  predicate ListFree(j: Json) {
    !j.List? && (j.Obj? ==> forall k :: k in j.fields ==> ListFree(j.fields[k]))
  }

  lemma {:induction false} ListFreeTreesAgree(mine: Json, shipped: Json)
    requires ListFree(mine) || ListFree(shipped)
    ensures MergeOld(mine, shipped) == Swapped(mine, shipped)
  {
    ListFreeGainsNothing(mine, shipped);
    MergesAgree(mine, shipped);
  }

  lemma {:induction false} ListFreeGainsNothing(mine: Json, shipped: Json)
    requires ListFree(mine) || ListFree(shipped)
    ensures NoListGain(mine, shipped)
    decreases shipped
  {
    if mine.Obj? && shipped.Obj? {
      forall k | k in mine.fields && k in shipped.fields
        ensures NoListGain(mine.fields[k], shipped.fields[k])
      {
        ListFreeGainsNothing(mine.fields[k], shipped.fields[k]);
      }
    }
  }
}
