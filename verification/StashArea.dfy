/** The directory an install keeps recorded packages in while it replaces a device
    (`_stash_installed_packages` and the end of `_do_install` in
    launcher/operations.py).

    A package is moved to a path made of its category and its key.  A category with a
    separator makes that a path through subdirectories, which nothing creates except
    the move of a directory.  Moves are those of Python's `shutil.move`. */
module StashArea {
  import opened Options
  import opened Folders
  import opened LocalManifest
  import opened SafeNames

  // ----- paths -----

  function StashName(p: Package): string { p.category + "__" + p.key }

  predicate Separator(c: char) { c == '/' || c == '\\' }

  function Parts(name: string): (parts: seq<string>)
    ensures parts != []
  {
    if name == "" then [""]
    else
      var rest := Parts(name[1..]);
      if Separator(name[0]) then [""] + rest else [[name[0]] + rest[0]] + rest[1..]
  }

  /** The parts of the path a package is stashed at. */
  function PathOf(p: Package): seq<string> { Parts(StashName(p)) }

  /** Characters Windows takes in no name: a move to such a path raises. */
  predicate Forbidden(c: char) { c < ' ' || c in "<>\"|?*" }

  predicate Legal(path: seq<string>) { forall part :: part in path ==> forall c :: c in part ==> !Forbidden(c) }

  /** A part that Windows or the path library reads as something else than a name of
      its own: no part at all, this or the parent directory, a drive or a stream, a
      trailing dot or space, a device. */
  predicate OddPart(part: string) {
    || part == "" || part[|part| - 1] == '.' || part[|part| - 1] == ' ' || ':' in part
    || Reserved(Upper(DropSpaces(UpToDot(part))))
  }

  /** Some stash path leads to another place than it spells. */
  predicate Astray(stashed: seq<Package>) {
    exists p :: p in stashed && exists part :: part in PathOf(p) && OddPart(part)
  }

  // ----- trees -----

  function Look(e: Entry, path: seq<string>): Option<Entry> {
    if path == [] then Some(e)
    else if e.Tree? && path[0] in e.children then Look(e.children[path[0]], path[1..])
    else None
  }

  /** The entry put at a path, with the directories that lead to it. */
  function Insert(e: Entry, path: seq<string>, x: Entry): Entry
    decreases |path|
  {
    if path == [] then x
    else
      var children := if e.Tree? then e.children else map[];
      var below := if path[0] in children then children[path[0]] else Tree(map[]);
      Tree(children[path[0] := Insert(below, path[1..], x)])
  }

  function Remove(e: Entry, path: seq<string>): Entry
    requires path != []
  {
    if !e.Tree? || path[0] !in e.children then e
    else if |path| == 1 then Tree(e.children - {path[0]})
    else Tree(e.children[path[0] := Remove(e.children[path[0]], path[1..])])
  }

  /** No file stands where a directory on the way would have to be. */
  predicate Open(e: Entry, path: seq<string>) {
    path == [] || (e.Tree? && (path[0] in e.children ==> Open(e.children[path[0]], path[1..])))
  }

  predicate Apart(p: seq<string>, q: seq<string>) { !(p <= q) && !(q <= p) }

  lemma {:induction false} LookBelow(e: Entry, p: seq<string>, r: seq<string>)
    ensures Look(e, p + r) == if Look(e, p).Some? then Look(Look(e, p).value, r) else None
  {
    if p == [] {
      assert p + r == r;
    } else if e.Tree? && p[0] in e.children {
      LookBelow(e.children[p[0]], p[1..], r);
      assert (p + r)[1..] == p[1..] + r;
    }
  }

  lemma {:induction false} LookInserted(e: Entry, p: seq<string>, x: Entry)
    ensures Look(Insert(e, p, x), p) == Some(x)
    decreases |p|
  {
    if p != [] {
      var children := if e.Tree? then e.children else map[];
      LookInserted(if p[0] in children then children[p[0]] else Tree(map[]), p[1..], x);
    }
  }

  lemma {:induction false} LookApart(e: Entry, p: seq<string>, x: Entry, q: seq<string>)
    requires Apart(p, q)
    ensures Look(Insert(e, p, x), q) == Look(e, q)
    decreases |p|
  {
    assert p != [] && q != [];
    if p[0] == q[0] {
      var children := if e.Tree? then e.children else map[];
      var below := if p[0] in children then children[p[0]] else Tree(map[]);
      TailsApart(p, q);
      LookApart(below, p[1..], x, q[1..]);
    }
  }

  lemma TailsApart(p: seq<string>, q: seq<string>)
    requires Apart(p, q) && p != [] && q != [] && p[0] == q[0]
    ensures Apart(p[1..], q[1..])
  {
    assert p == [p[0]] + p[1..] && q == [q[0]] + q[1..];
  }

  /** The directories that lead to an inserted entry. */
  lemma {:induction false} LookAbove(e: Entry, p: seq<string>, x: Entry, k: nat)
    requires k < |p|
    ensures
      Look(Insert(e, p, x), p[..k])
      == Some(Insert(if Look(e, p[..k]).Some? then Look(e, p[..k]).value else Tree(map[]), p[k..], x))
    decreases k
  {
    var children := if e.Tree? then e.children else map[];
    var below := if p[0] in children then children[p[0]] else Tree(map[]);
    if k > 0 {
      LookAbove(below, p[1..], x, k - 1);
      assert p[..k][1..] == p[1..][..k - 1] && p[k..] == p[1..][k - 1..];
    } else {
      assert p[k..] == p;
    }
  }

  lemma {:induction false} LookRemoved(e: Entry, p: seq<string>, q: seq<string>)
    requires p != [] && p <= q
    ensures Look(Remove(e, p), q) == None
  {
    if e.Tree? && p[0] in e.children && |p| > 1 {
      LookRemoved(e.children[p[0]], p[1..], q[1..]);
    }
  }

  lemma {:induction false} RemoveApart(e: Entry, p: seq<string>, q: seq<string>)
    requires p != [] && Apart(p, q)
    ensures Look(Remove(e, p), q) == Look(e, q)
  {
    if e.Tree? && p[0] in e.children && p[0] == q[0] {
      TailsApart(p, q);
      RemoveApart(e.children[p[0]], p[1..], q[1..]);
    }
  }

  /** A removal brings nothing into being. */
  lemma {:induction false} RemoveAddsNothing(e: Entry, p: seq<string>, q: seq<string>)
    requires p != [] && Look(e, q) == None
    ensures Look(Remove(e, p), q) == None
  {
    if e.Tree? && p[0] in e.children && |p| > 1 && q != [] && q[0] == p[0] {
      RemoveAddsNothing(e.children[p[0]], p[1..], q[1..]);
    }
  }

  lemma {:induction false} OpenAt(e: Entry, path: seq<string>)
    ensures Open(e, path) <==> forall k :: 0 <= k < |path| && Look(e, path[..k]).Some? ==> IsTree(Look(e, path[..k]))
  {
    if path != [] {
      if e.Tree? && path[0] in e.children {
        OpenAt(e.children[path[0]], path[1..]);
        forall k | 1 <= k < |path|
          ensures Look(e, path[..k]) == Look(e.children[path[0]], path[1..][..k - 1])
        {
          assert path[..k][1..] == path[1..][..k - 1];
        }
        assert Look(e, path[..0]) == Some(e);
        assert forall k :: 0 <= k < |path| - 1 ==>
            Look(e.children[path[0]], path[1..][..k]) == Look(e, path[..k + 1]);
      } else {
        assert Look(e, path[..0]) == Some(e);
      }
    }
  }

  // ----- moving -----

  function Parent(path: seq<string>): seq<string>
    requires path != []
  {
    path[..|path| - 1]
  }

  /** `shutil.move` of an artifact named key to a path: into a directory that is there
      already; else a directory with the directories it needs, and a file only where
      its directory is.  None where it raises. */
  function MoveIn(area: Entry, path: seq<string>, key: string, x: Entry): Option<Entry>
    requires path != []
  {
    if !Legal(path) then None
    else if IsTree(Look(area, path)) then
      if Look(area, path + [key]).Some? then None else Some(Insert(area, path + [key], x))
    else if x.Tree? then
      if Look(area, path).Some? || !Open(area, path) then None else Some(Insert(area, path, x))
    else if IsTree(Look(area, Parent(path))) then Some(Insert(area, path, x))
    else None
  }

  /** An artifact on its way: where it is stashed, its name, and what it is. */
  datatype Parcel = Parcel(path: seq<string>, key: string, entry: Entry)

  predicate Addressed(ps: seq<Parcel>) { forall p :: p in ps ==> p.path != [] }

  /** The stash after the parcels have been moved there one by one. */
  function Stash(ps: seq<Parcel>): Option<Entry>
    requires Addressed(ps)
  {
    if ps == [] then Some(Tree(map[]))
    else
      var (area, p) := (Stash(ps[..|ps| - 1]), ps[|ps| - 1]);
      if area.None? then None else MoveIn(area.value, p.path, p.key, p.entry)
  }

  datatype Taken = Taken(area: Entry, folder: Folder)

  /** The parcels taken back one by one, and the stash that is left. */
  function TakeBack(area: Entry, ps: seq<Parcel>): Option<Taken>
    requires Addressed(ps)
  {
    if ps == [] then Some(Taken(area, map[]))
    else
      var (t, p) := (TakeBack(area, ps[..|ps| - 1]), ps[|ps| - 1]);
      if t.None? || Look(t.value.area, p.path).None? then None
      else Some(Taken(Remove(t.value.area, p.path), t.value.folder[p.key := Look(t.value.area, p.path).value]))
  }

  /** What the parcels come back as; None where a move raises. */
  function Back(ps: seq<Parcel>): Option<Folder>
    requires Addressed(ps)
  {
    if Stash(ps).None? || TakeBack(Stash(ps).value, ps).None? then None
    else Some(TakeBack(Stash(ps).value, ps).value.folder)
  }

  /** Every parcel as it was. */
  function Originals(ps: seq<Parcel>): Folder {
    if ps == [] then map[] else Originals(ps[..|ps| - 1])[ps[|ps| - 1].key := ps[|ps| - 1].entry]
  }

  predicate HasParcel(ps: seq<Parcel>, key: string) { exists p :: p in ps && p.key == key }

  lemma HasParcelMore(ps: seq<Parcel>, p: Parcel, key: string)
    ensures HasParcel(ps + [p], key) <==> HasParcel(ps, key) || p.key == key
  {
    if HasParcel(ps, key) {
      var q :| q in ps && q.key == key;
      assert q in ps + [p];
    }
    assert p in ps + [p];
  }

  /** Something comes back for each parcel and for nothing else. */
  lemma {:induction false} TakenKeys(area: Entry, ps: seq<Parcel>, key: string)
    requires Addressed(ps) && TakeBack(area, ps).Some?
    ensures key in TakeBack(area, ps).value.folder <==> HasParcel(ps, key)
  {
    if ps != [] {
      var (front, p) := (ps[..|ps| - 1], ps[|ps| - 1]);
      TakenKeys(area, front, key);
      assert ps == front + [p];
      HasParcelMore(front, p, key);
    }
  }

  lemma BackKeys(ps: seq<Parcel>, key: string)
    requires Addressed(ps) && Back(ps).Some?
    ensures key in Back(ps).value <==> HasParcel(ps, key)
  {
    TakenKeys(Stash(ps).value, ps, key);
  }

  lemma {:induction false} OriginalKeys(ps: seq<Parcel>, key: string)
    ensures key in Originals(ps) <==> HasParcel(ps, key)
  {
    if ps != [] {
      var (front, p) := (ps[..|ps| - 1], ps[|ps| - 1]);
      OriginalKeys(front, key);
      assert ps == front + [p];
      HasParcelMore(front, p, key);
    }
  }

  // ----- when the moves go through -----

  /** The path leads to a parcel. */
  ghost predicate Leads(ps: seq<Parcel>, q: seq<string>) { exists j :: 0 <= j < |ps| && q <= ps[j].path }

  /** The path leads to a parcel or through one. */
  ghost predicate Touches(ps: seq<Parcel>, q: seq<string>) { exists j :: 0 <= j < |ps| && !Apart(q, ps[j].path) }

  /** The path leads to a parcel's, and further. */
  ghost predicate LeadsBefore(ps: seq<Parcel>, q: seq<string>) { exists j :: 0 <= j < |ps| && q < ps[j].path }

  /** No parcel's path leads to the path or through it. */
  ghost predicate Clear(ps: seq<Parcel>, q: seq<string>) { forall j :: 0 <= j < |ps| ==> !(ps[j].path <= q) }

  /** After ps, the parcel goes to a legal path of one part, or is a directory, or finds
      the directory it goes to made by an earlier one. */
  ghost predicate Reachable(ps: seq<Parcel>, p: Parcel)
    requires p.path != []
  {
    Legal(p.path) && (|p.path| == 1 || p.entry.Tree? || Leads(ps, Parent(p.path)))
  }

  /** After ps, the parcel can be moved, and will be found when it is taken back.  Where
      its path leads on to an earlier one's, it is moved into the directory there, and
      needs its own name to be free. */
  ghost predicate Accepts(ps: seq<Parcel>, p: Parcel)
    requires p.path != []
  {
    && Legal(p.path) && Clear(ps, p.path)
    && if LeadsBefore(ps, p.path) then !Leads(ps, p.path + [p.key]) else Reachable(ps, p)
  }

  ghost predicate Stashable(ps: seq<Parcel>)
    requires Addressed(ps)
  {
    forall i :: 0 <= i < |ps| ==> Accepts(ps[..i], ps[i])
  }

  /** No parcel's path leads to or through another's, and each can be reached. */
  ghost predicate Separate(ps: seq<Parcel>)
    requires Addressed(ps)
  {
    forall i :: 0 <= i < |ps| ==> !Touches(ps[..i], ps[i].path) && Reachable(ps[..i], ps[i])
  }

  /** A later parcel's path leads to an earlier one's. */
  ghost predicate Nested(ps: seq<Parcel>) { exists i :: 0 <= i < |ps| && LeadsBefore(ps[..i], ps[i].path) }

  /** What separates the two. */
  lemma SeparateIsStashable(ps: seq<Parcel>)
    requires Addressed(ps)
    ensures Separate(ps) <==> Stashable(ps) && !Nested(ps)
  {
    forall i | 0 <= i < |ps|
      ensures !Touches(ps[..i], ps[i].path) <==> Clear(ps[..i], ps[i].path) && !LeadsBefore(ps[..i], ps[i].path)
    {
      ApartFromAll(ps[..i], ps[i].path);
    }
  }

  lemma ApartFromAll(ps: seq<Parcel>, q: seq<string>)
    ensures !Touches(ps, q) <==> Clear(ps, q) && !LeadsBefore(ps, q)
  {
    forall j | 0 <= j < |ps|
      ensures Apart(q, ps[j].path) <==> !(ps[j].path <= q) && !(q < ps[j].path)
    {}
  }

  ghost predicate AtPaths(area: Entry, ps: seq<Parcel>) {
    forall i :: 0 <= i < |ps| ==> Look(area, ps[i].path) == Some(ps[i].entry)
  }

  /** Only directories lead to the parcels. */
  ghost predicate InDirectories(area: Entry, ps: seq<Parcel>) {
    forall q :: Leads(ps, q) && (forall i :: 0 <= i < |ps| ==> q != ps[i].path) ==> IsTree(Look(area, q))
  }

  ghost predicate NothingElse(area: Entry, ps: seq<Parcel>) {
    forall q :: q != [] && Look(area, q).Some? ==> Touches(ps, q)
  }

  /** The stash holds the parcels at their paths, in directories, and nothing else. */
  ghost predicate Holding(area: Entry, ps: seq<Parcel>) {
    area.Tree? && AtPaths(area, ps) && InDirectories(area, ps) && NothingElse(area, ps)
  }

  lemma TouchesMore(ps: seq<Parcel>, p: Parcel, q: seq<string>)
    ensures Touches(ps + [p], q) <==> Touches(ps, q) || !Apart(q, p.path)
    ensures Leads(ps + [p], q) <==> Leads(ps, q) || q <= p.path
  {
    var all := ps + [p];
    assert all[|ps|] == p;
    if Touches(ps, q) {
      var j :| 0 <= j < |ps| && !Apart(q, ps[j].path);
      assert all[j] == ps[j];
    }
    if Leads(ps, q) {
      var j :| 0 <= j < |ps| && q <= ps[j].path;
      assert all[j] == ps[j];
    }
  }

  lemma FrontAddressed(ps: seq<Parcel>, p: Parcel)
    requires Addressed(ps + [p])
    ensures Addressed(ps) && p.path != []
  {
    assert p in ps + [p];
    forall x | x in ps
      ensures x in ps + [p]
    {}
  }

  lemma SameFront(ps: seq<Parcel>, p: Parcel, i: nat)
    requires i < |ps|
    ensures (ps + [p])[i] == ps[i] && (ps + [p])[..i] == ps[..i]
  {}

  /** A part of the way to a path apart from all parcels is a directory if it leads to a
      parcel, and nothing otherwise. */
  lemma StepOfWay(area: Entry, ps: seq<Parcel>, path: seq<string>, k: nat)
    requires Holding(area, ps) && 0 < k < |path| && !Touches(ps, path)
    ensures if Leads(ps, path[..k]) then IsTree(Look(area, path[..k])) else Look(area, path[..k]) == None
  {
    var q := path[..k];
    forall j | 0 <= j < |ps|
      ensures !(ps[j].path <= q)
    {
      assert Apart(path, ps[j].path);
      BelowPrefix(ps[j].path, path, k);
    }
    assert !Leads(ps, q) ==> !Touches(ps, q);
  }

  lemma BelowPrefix(p: seq<string>, path: seq<string>, k: nat)
    requires k <= |path|
    ensures p <= path[..k] ==> p <= path
  {}

  lemma WayIsOpen(area: Entry, ps: seq<Parcel>, path: seq<string>)
    requires Holding(area, ps) && path != [] && !Touches(ps, path)
    ensures Open(area, path)
  {
    forall k | 0 <= k < |path|
      ensures Look(area, path[..k]).Some? ==> IsTree(Look(area, path[..k]))
    {
      if k > 0 {
        StepOfWay(area, ps, path, k);
      } else {
        assert path[..k] == [];
      }
    }
    OpenAt(area, path);
  }

  lemma StillAtPaths(area: Entry, ps: seq<Parcel>, p: Parcel)
    requires AtPaths(area, ps) && !Touches(ps, p.path)
    ensures AtPaths(Insert(area, p.path, p.entry), ps + [p])
  {
    var all := ps + [p];
    forall i | 0 <= i < |all|
      ensures Look(Insert(area, p.path, p.entry), all[i].path) == Some(all[i].entry)
    {
      if i < |ps| {
        assert Apart(p.path, ps[i].path);
        LookApart(area, p.path, p.entry, ps[i].path);
      } else {
        LookInserted(area, p.path, p.entry);
      }
    }
  }

  lemma StillInDirectories(area: Entry, ps: seq<Parcel>, p: Parcel)
    requires InDirectories(area, ps) && !Touches(ps, p.path) && p.path != []
    ensures InDirectories(Insert(area, p.path, p.entry), ps + [p])
  {
    var (all, after) := (ps + [p], Insert(area, p.path, p.entry));
    assert all[|ps|] == p;
    forall q | Leads(all, q) && forall i :: 0 <= i < |all| ==> q != all[i].path
      ensures IsTree(Look(after, q))
    {
      TouchesMore(ps, p, q);
      if q <= p.path {
        assert q == p.path[..|q|];
        LookAbove(area, p.path, p.entry, |q|);
      } else {
        var j :| 0 <= j < |ps| && q <= ps[j].path;
        assert Apart(p.path, ps[j].path);
        assert forall i :: 0 <= i < |ps| ==> all[i] == ps[i];
        PrefixApart(p.path, q, ps[j].path);
        LookApart(area, p.path, p.entry, q);
      }
    }
  }

  lemma PrefixApart(p: seq<string>, q: seq<string>, r: seq<string>)
    requires q <= r && Apart(p, r) && !(q <= p)
    ensures Apart(p, q)
  {}

  lemma StillNothingElse(area: Entry, ps: seq<Parcel>, p: Parcel)
    requires NothingElse(area, ps)
    ensures NothingElse(Insert(area, p.path, p.entry), ps + [p])
  {
    forall q | q != [] && Look(Insert(area, p.path, p.entry), q).Some?
      ensures Touches(ps + [p], q)
    {
      TouchesMore(ps, p, q);
      if Apart(q, p.path) {
        LookApart(area, p.path, p.entry, q);
      }
    }
  }

  lemma InsertedIsHeld(area: Entry, ps: seq<Parcel>, p: Parcel)
    requires Holding(area, ps) && !Touches(ps, p.path) && p.path != []
    ensures Holding(Insert(area, p.path, p.entry), ps + [p])
  {
    StillAtPaths(area, ps, p);
    StillInDirectories(area, ps, p);
    StillNothingElse(area, ps, p);
  }

  /** A parcel that can be reached is moved to its path. */
  lemma ReachableMoves(area: Entry, ps: seq<Parcel>, p: Parcel)
    requires Holding(area, ps) && !Touches(ps, p.path) && p.path != []
    ensures
      MoveIn(area, p.path, p.key, p.entry)
      == if Reachable(ps, p) then Some(Insert(area, p.path, p.entry)) else None
  {
    assert Look(area, p.path) == None;
    WayIsOpen(area, ps, p.path);
    if |p.path| > 1 {
      StepOfWay(area, ps, p.path, |p.path| - 1);
    } else {
      assert Parent(p.path) == [];
    }
  }

  lemma NothingHeld()
    ensures Holding(Tree(map[]), [])
  {
    forall q: seq<string> | q != []
      ensures Look(Tree(map[]), q) == None
    {}
  }

  // ----- when they do not -----

  /** A stash that failed stays failed. */
  lemma {:induction false} StashFailsOn(ps: seq<Parcel>, n: nat)
    requires Addressed(ps) && n <= |ps| && Addressed(ps[..n]) && Stash(ps[..n]).None?
    ensures Stash(ps).None?
    decreases |ps|
  {
    if n < |ps| {
      assert ps[..|ps| - 1][..n] == ps[..n];
      StashFailsOn(ps[..|ps| - 1], n);
    } else {
      assert ps[..n] == ps;
    }
  }

  lemma {:induction false} TakeBackFailsOn(area: Entry, ps: seq<Parcel>, n: nat)
    requires Addressed(ps) && n <= |ps| && Addressed(ps[..n]) && TakeBack(area, ps[..n]).None?
    ensures TakeBack(area, ps).None?
    decreases |ps|
  {
    if n < |ps| {
      assert ps[..|ps| - 1][..n] == ps[..n];
      TakeBackFailsOn(area, ps[..|ps| - 1], n);
    } else {
      assert ps[..n] == ps;
    }
  }

  /** Once a path is gone it stays gone. */
  lemma {:induction false} GoneStaysGone(area: Entry, ps: seq<Parcel>, j: nat, q: seq<string>)
    requires Addressed(ps) && j < |ps| && ps[j].path <= q
    ensures TakeBack(area, ps).Some? ==> Look(TakeBack(area, ps).value.area, q) == None
    decreases |ps|
  {
    var (front, p) := (ps[..|ps| - 1], ps[|ps| - 1]);
    var t := TakeBack(area, front);
    if t.Some? {
      if j == |ps| - 1 {
        LookRemoved(t.value.area, p.path, q);
      } else {
        GoneStaysGone(area, front, j, q);
        RemoveAddsNothing(t.value.area, p.path, q);
      }
    }
  }

  /** A path that leads to or through an earlier one's raises, at the latest when that
      one has been taken back. */
  lemma ThroughEarlierRaises(ps: seq<Parcel>, i: nat, j: nat)
    requires Addressed(ps) && j < i < |ps| && ps[j].path <= ps[i].path
    ensures Back(ps) == None
  {
    if Stash(ps).Some? {
      var area := Stash(ps).value;
      assert ps[..i][j] == ps[j] && ps[..i + 1][..i] == ps[..i];
      GoneStaysGone(area, ps[..i], j, ps[i].path);
      assert TakeBack(area, ps[..i + 1]) == None;
      TakeBackFailsOn(area, ps, i + 1);
    }
  }

  // ----- where a parcel lies -----

  /** Where a parcel moved after ps lies: at its path, or in the directory there. */
  ghost function Landing(ps: seq<Parcel>, p: Parcel): Parcel {
    if LeadsBefore(ps, p.path) then p.(path := p.path + [p.key]) else p
  }

  ghost function Landed(ps: seq<Parcel>): seq<Parcel> {
    if ps == [] then [] else Landed(ps[..|ps| - 1]) + [Landing(ps[..|ps| - 1], ps[|ps| - 1])]
  }

  lemma {:induction false} LandedAt(ps: seq<Parcel>, i: nat)
    requires i < |ps|
    ensures |Landed(ps)| == |ps| && Landed(ps)[i] == Landing(ps[..i], ps[i])
    decreases |ps|
  {
    var front := ps[..|ps| - 1];
    if front != [] {
      LandedAt(front, if i < |front| then i else 0);
      assert i < |front| ==> front[..i] == ps[..i];
    }
  }

  lemma LandedSize(ps: seq<Parcel>)
    ensures |Landed(ps)| == |ps|
  {
    if ps != [] {
      LandedAt(ps, 0);
    }
  }

  lemma PrefixOfMore(q: seq<string>, r: seq<string>, k: string)
    ensures q <= r + [k] <==> q <= r || q == r + [k]
  {
    if q <= r + [k] && |q| <= |r| {
      assert q == (r + [k])[..|q|] == r[..|q|];
    }
    if q <= r {
      assert q == r[..|q|] == (r + [k])[..|q|];
    }
  }

  /** A path that no parcel's leads to, seen from the places they lie in. */
  lemma LeadsToLanded(ps: seq<Parcel>, q: seq<string>, j: nat)
    requires j < |ps|
    ensures |Landed(ps)| == |ps|
    ensures q <= ps[j].path ==> q <= Landed(ps)[j].path
    ensures !(ps[j].path <= q) && q <= Landed(ps)[j].path ==> q < ps[j].path
    ensures !(ps[j].path <= q) ==> !(Landed(ps)[j].path <= q)
  {
    LandedAt(ps, j);
    PrefixOfMore(q, ps[j].path, ps[j].key);
    PrefixOfMore(ps[j].path, ps[j].path, ps[j].key);
  }

  /** The place a parcel is moved to is apart from those of all before. */
  lemma LandsApart(ps: seq<Parcel>, p: Parcel)
    requires Clear(ps, p.path) && (LeadsBefore(ps, p.path) ==> !Leads(ps, p.path + [p.key]))
    ensures !Touches(Landed(ps), Landing(ps, p).path)
  {
    LandedSize(ps);
    forall j | 0 <= j < |ps|
      ensures Apart(Landing(ps, p).path, Landed(ps)[j].path)
    {
      LeadsToLanded(ps, p.path, j);
      if LeadsBefore(ps, p.path) {
        InsideApart(ps, p, j);
      }
    }
  }

  lemma InsideApart(ps: seq<Parcel>, p: Parcel, j: nat)
    requires j < |ps| && !(ps[j].path <= p.path) && !Leads(ps, p.path + [p.key])
    ensures |Landed(ps)| == |ps| && Apart(p.path + [p.key], Landed(ps)[j].path)
  {
    var q := p.path + [p.key];
    PrefixOfMore(ps[j].path, p.path, p.key);
    assert !(q <= ps[j].path);
    LeadsToLanded(ps, q, j);
  }

  lemma SameReach(ps: seq<Parcel>, p: Parcel)
    requires p.path != [] && Clear(ps, p.path)
    ensures Reachable(Landed(ps), p) <==> Reachable(ps, p)
  {
    LandedSize(ps);
    var q := Parent(p.path);
    forall j | 0 <= j < |ps|
      ensures q <= Landed(ps)[j].path <==> q <= ps[j].path
    {
      assert q <= p.path;
      LeadsToLanded(ps, q, j);
    }
  }

  /** In the directory that leads to an earlier parcel, a name is taken exactly when it
      leads to one. */
  lemma NamesInDirectory(area: Entry, ps: seq<Parcel>, p: Parcel)
    requires Holding(area, Landed(ps)) && Clear(ps, p.path) && LeadsBefore(ps, p.path)
    ensures IsTree(Look(area, p.path)) && (Look(area, p.path + [p.key]).Some? <==> Leads(ps, p.path + [p.key]))
  {
    LandedSize(ps);
    var j :| 0 <= j < |ps| && p.path < ps[j].path;
    LeadsToLanded(ps, p.path, j);
    PrefixThere(area, p.path, Landed(ps)[j].path);
    if Leads(ps, p.path + [p.key]) {
      var i :| 0 <= i < |ps| && p.path + [p.key] <= ps[i].path;
      LeadsToLanded(ps, p.path + [p.key], i);
      PrefixThere(area, p.path + [p.key], Landed(ps)[i].path);
    } else {
      LandsApart(ps, p);
    }
  }

  /** A parcel whose path no earlier one's leads to is moved if and only if it is
      accepted. */
  lemma AcceptedMoves(area: Entry, ps: seq<Parcel>, p: Parcel)
    requires Holding(area, Landed(ps)) && Clear(ps, p.path) && p.path != []
    ensures
      MoveIn(area, p.path, p.key, p.entry)
      == if Accepts(ps, p) then Some(Insert(area, Landing(ps, p).path, p.entry)) else None
  {
    if LeadsBefore(ps, p.path) {
      NamesInDirectory(area, ps, p);
    } else {
      LandsApart(ps, p);
      SameReach(ps, p);
      ReachableMoves(area, Landed(ps), p);
    }
  }

  lemma StashableFront(ps: seq<Parcel>, p: Parcel)
    requires Addressed(ps + [p])
    ensures Addressed(ps) && p.path != []
    ensures Stashable(ps + [p]) <==> Stashable(ps) && Accepts(ps, p)
  {
    var all := ps + [p];
    FrontAddressed(ps, p);
    assert all[|ps|] == p && all[..|ps|] == ps;
    forall i | 0 <= i < |ps|
      ensures all[i] == ps[i] && all[..i] == ps[..i]
    {
      SameFront(ps, p, i);
    }
  }

  /** Stashable parcels are all stashed, each where it lands. */
  lemma {:induction false} StashableAreStashed(ps: seq<Parcel>)
    requires Addressed(ps) && Stashable(ps)
    ensures Stash(ps).Some? && Holding(Stash(ps).value, Landed(ps))
  {
    if ps == [] {
      NothingHeld();
    } else {
      var (front, p) := (ps[..|ps| - 1], ps[|ps| - 1]);
      assert ps == front + [p];
      StashableFront(front, p);
      StashableAreStashed(front);
      AcceptedMoves(Stash(front).value, front, p);
      LandsApart(front, p);
      InsertedIsHeld(Stash(front).value, Landed(front), Landing(front, p));
    }
  }

  // ----- taking them back -----

  lemma PrefixThere(e: Entry, q: seq<string>, r: seq<string>)
    requires q <= r && Look(e, r).Some?
    ensures Look(e, q).Some? && (q != r ==> IsTree(Look(e, q)))
  {
    LookBelow(e, q, r[|q|..]);
    assert q + r[|q|..] == r;
  }

  /** Taking a parcel back leaves the later ones where they lie. */
  lemma TakenApart(ps: seq<Parcel>, i: nat, j: nat)
    requires Addressed(ps) && Stashable(ps) && i < j < |ps|
    ensures |Landed(ps)| == |ps| && Apart(ps[i].path, Landed(ps)[j].path)
  {
    LandedAt(ps, j);
    var (before, p, q) := (ps[..j], ps[j], ps[i].path);
    assert before[i] == ps[i] && Accepts(before, p);
    PrefixOfMore(q, p.path, p.key);
    if LeadsBefore(before, p.path) {
      assert !(p.path + [p.key] <= q);
      if q == p.path + [p.key] {
        assert false;
      }
    } else {
      assert !(p.path < q);
    }
  }

  /** What lies in a parcel's place is taken back: itself, or the directory it is in. */
  lemma FoundAt(area: Entry, ps: seq<Parcel>, i: nat)
    requires i < |ps| && |Landed(ps)| == |ps| && Look(area, Landed(ps)[i].path) == Some(ps[i].entry)
    ensures CameBack(ps, i, Look(area, ps[i].path))
  {
    LandedAt(ps, i);
    var p := ps[i];
    if LeadsBefore(ps[..i], p.path) {
      PrefixThere(area, p.path, p.path + [p.key]);
      LookBelow(area, p.path, [p.key]);
      assert [p.key][1..] == [];
    }
  }

  /** The parcel as it was, or a directory that holds it under its name. */
  ghost predicate CameBack(ps: seq<Parcel>, i: nat, x: Option<Entry>)
    requires i < |ps|
  {
    if LeadsBefore(ps[..i], ps[i].path) then IsTree(x) && At(x.value.children, ps[i].key) == Some(ps[i].entry)
    else x == Some(ps[i].entry)
  }

  /** The parcels from n on are where they landed. */
  ghost predicate Lying(area: Entry, ps: seq<Parcel>, n: nat) {
    |Landed(ps)| == |ps| && forall j :: n <= j < |ps| ==> Look(area, Landed(ps)[j].path) == Some(ps[j].entry)
  }

  lemma HeldAreLying(area: Entry, ps: seq<Parcel>)
    requires AtPaths(area, Landed(ps))
    ensures Lying(area, ps, 0)
  {
    LandedSize(ps);
    forall j | 0 <= j < |ps|
      ensures Landed(ps)[j].entry == ps[j].entry
    {
      LandedAt(ps, j);
    }
  }

  lemma TakenNext(area: Entry, ps: seq<Parcel>, n: nat)
    requires Addressed(ps) && Stashable(ps) && n < |ps| && Lying(area, ps, n)
    ensures Look(area, ps[n].path).Some? && Lying(Remove(area, ps[n].path), ps, n + 1)
  {
    FoundAt(area, ps, n);
    forall j | n < j < |ps|
      ensures Look(Remove(area, ps[n].path), Landed(ps)[j].path) == Some(ps[j].entry)
    {
      TakenApart(ps, n, j);
      RemoveApart(area, ps[n].path, Landed(ps)[j].path);
    }
  }

  lemma TakeBackNext(area: Entry, ps: seq<Parcel>, n: nat)
    requires Addressed(ps) && n < |ps|
    ensures Addressed(ps[..n]) && Addressed(ps[..n + 1])
    ensures
      var (t, p) := (TakeBack(area, ps[..n]), ps[n]);
      t.Some? && Look(t.value.area, p.path).Some? ==>
        TakeBack(area, ps[..n + 1])
        == Some(Taken(Remove(t.value.area, p.path), t.value.folder[p.key := Look(t.value.area, p.path).value]))
  {
    assert ps[..n + 1][..n] == ps[..n];
  }

  /** Until a parcel is taken back it stays where it lies. */
  lemma {:induction false} TakenInTurn(area: Entry, ps: seq<Parcel>, n: nat)
    requires Addressed(ps) && Stashable(ps) && AtPaths(area, Landed(ps)) && n <= |ps|
    ensures Addressed(ps[..n]) && TakeBack(area, ps[..n]).Some?
    ensures Lying(TakeBack(area, ps[..n]).value.area, ps, n)
  {
    if n == 0 {
      HeldAreLying(area, ps);
    } else {
      TakenInTurn(area, ps, n - 1);
      TakenNext(TakeBack(area, ps[..n - 1]).value.area, ps, n - 1);
      TakeBackNext(area, ps, n - 1);
    }
  }

  predicate DistinctParcels(ps: seq<Parcel>) { forall i, j :: 0 <= i < j < |ps| ==> ps[i].key != ps[j].key }

  lemma {:induction false} OriginalAt(ps: seq<Parcel>, i: nat)
    requires DistinctParcels(ps) && i < |ps|
    ensures At(Originals(ps), ps[i].key) == Some(ps[i].entry)
    decreases |ps|
  {
    var front := ps[..|ps| - 1];
    if i < |front| {
      OriginalAt(front, i);
      assert front[i] == ps[i];
    }
  }

  /** What was taken for a parcel is not replaced later. */
  lemma {:induction false} TakenStays(area: Entry, ps: seq<Parcel>, i: nat)
    requires Addressed(ps) && DistinctParcels(ps) && i < |ps| && TakeBack(area, ps).Some?
    ensures Addressed(ps[..i]) && TakeBack(area, ps[..i]).Some?
    ensures
      At(TakeBack(area, ps).value.folder, ps[i].key) == Look(TakeBack(area, ps[..i]).value.area, ps[i].path)
    decreases |ps|
  {
    var front := ps[..|ps| - 1];
    if i < |front| {
      TakenStays(area, front, i);
      assert front[i] == ps[i] && front[..i] == ps[..i];
    }
  }

  /** What each stashable parcel comes back as. */
  lemma StashableComeBack(ps: seq<Parcel>, i: nat)
    requires Addressed(ps) && Stashable(ps) && DistinctParcels(ps) && i < |ps|
    ensures Back(ps).Some? && CameBack(ps, i, At(Back(ps).value, ps[i].key))
  {
    StashableIsBack(ps);
    var area := Stash(ps).value;
    TakenInTurn(area, ps, i);
    TakenStays(area, ps, i);
    FoundAt(TakeBack(area, ps[..i]).value.area, ps, i);
  }

  lemma StashableIsBack(ps: seq<Parcel>)
    requires Addressed(ps) && Stashable(ps)
    ensures Back(ps).Some? && Stash(ps).Some? && AtPaths(Stash(ps).value, Landed(ps))
  {
    StashableAreStashed(ps);
    TakenInTurn(Stash(ps).value, ps, |ps|);
    assert ps[..|ps|] == ps;
  }

  /** The first parcel that is not accepted. */
  lemma {:induction false} FirstOffence(ps: seq<Parcel>) returns (i: nat)
    requires Addressed(ps) && !Stashable(ps)
    ensures i < |ps| && Stashable(ps[..i]) && !Accepts(ps[..i], ps[i])
  {
    var (front, p) := (ps[..|ps| - 1], ps[|ps| - 1]);
    assert ps == front + [p];
    StashableFront(front, p);
    if Stashable(front) {
      i := |ps| - 1;
    } else {
      i := FirstOffence(front);
      assert front[..i] == ps[..i] && front[i] == ps[i];
    }
  }

  /** A parcel that is not accepted raises. */
  lemma RefusedRaises(ps: seq<Parcel>, i: nat)
    requires Addressed(ps) && i < |ps| && Stashable(ps[..i]) && !Accepts(ps[..i], ps[i])
    ensures Back(ps) == None
  {
    if Clear(ps[..i], ps[i].path) {
      StashableAreStashed(ps[..i]);
      AcceptedMoves(Stash(ps[..i]).value, ps[..i], ps[i]);
      assert ps[..i + 1][..i] == ps[..i];
      StashFailsOn(ps, i + 1);
    } else {
      var j :| 0 <= j < i && ps[..i][j].path <= ps[i].path;
      ThroughEarlierRaises(ps, i, j);
    }
  }

  /** The exact condition for the moves to go through. */
  lemma RaisesUnlessStashable(ps: seq<Parcel>)
    requires Addressed(ps)
    ensures Back(ps) == None <==> !Stashable(ps)
  {
    if Stashable(ps) {
      StashableIsBack(ps);
    } else {
      var i := FirstOffence(ps);
      RefusedRaises(ps, i);
    }
  }

  lemma NotItsOwnChild(e: Entry, key: string)
    requires e.Tree? && key in e.children
    ensures e.children[key] != e
  {}

  lemma {:induction false} SeparateTaken(area: Entry, ps: seq<Parcel>, n: nat)
    requires Addressed(ps) && Stashable(ps) && !Nested(ps) && AtPaths(area, Landed(ps)) && n <= |ps|
    ensures Addressed(ps[..n]) && TakeBack(area, ps[..n]).Some?
    ensures TakeBack(area, ps[..n]).value.folder == Originals(ps[..n])
  {
    if n > 0 {
      SeparateTaken(area, ps, n - 1);
      TakenInTurn(area, ps, n - 1);
      FoundAt(TakeBack(area, ps[..n - 1]).value.area, ps, n - 1);
      TakeBackNext(area, ps, n - 1);
      OriginalsNext(ps, n - 1);
    }
  }

  lemma OriginalsNext(ps: seq<Parcel>, n: nat)
    requires n < |ps|
    ensures Originals(ps[..n + 1]) == Originals(ps[..n])[ps[n].key := ps[n].entry]
  {
    assert ps[..n + 1][..n] == ps[..n];
  }

  lemma SeparateIsIntact(ps: seq<Parcel>)
    requires Addressed(ps) && Separate(ps)
    ensures Back(ps) == Some(Originals(ps))
  {
    SeparateIsStashable(ps);
    StashableIsBack(ps);
    SeparateTaken(Stash(ps).value, ps, |ps|);
    assert ps[..|ps|] == ps;
  }

  /** The exact condition: every parcel comes back as it was if and only if no path leads
      to or through another's and each can be reached. */
  lemma IntactIfSeparate(ps: seq<Parcel>)
    requires Addressed(ps) && DistinctParcels(ps)
    ensures Back(ps) == Some(Originals(ps)) <==> Separate(ps)
  {
    SeparateIsStashable(ps);
    RaisesUnlessStashable(ps);
    if Separate(ps) {
      SeparateIsIntact(ps);
    } else if Stashable(ps) {
      var i :| 0 <= i < |ps| && LeadsBefore(ps[..i], ps[i].path);
      StashableComeBack(ps, i);
      OriginalAt(ps, i);
      NotItsOwnChild(At(Back(ps).value, ps[i].key).value, ps[i].key);
    }
  }
}
