/** What the device card list should show (launcher/device_card_list.py): the rows made
    from the devices and the query, and the list as a machine over its events. */
module CardRows {
  import opened Options
  import opened StableSort

  // ----- devices and how they are shown -----

  /** `facts` is everything else the texts of a device are made of. */
  datatype Device = Device(name: string, isInstalled: bool, facts: seq<string>)

  type Colour = string
  datatype Palette = Palette(base: Device -> Colour, hover: Device -> Colour, selected: Device -> Colour)

  /** The text functions of the launcher and the order `reload` sorts by. */
  datatype View = View(
    group: Device -> string, osTitle: Device -> string, haystack: Device -> string,
    heading: (Device, bool) -> string, details: (Device, bool) -> seq<string>,
    normal: string -> string, order: (Device, Device) -> bool)

  /** The three colours of `_card_colors`. */
  datatype Emphasis = Plain | Pointed | Chosen

  function Shade(p: Palette, e: Emphasis, d: Device): Colour {
    match e
    case Plain => p.base(d)
    case Pointed => p.hover(d)
    case Chosen => p.selected(d)
  }

  function Heading(view: View, d: Device, collide: bool): string { view.heading(d, collide) }

  /** `card_detail_parts(d, not collide)`. */
  function Details(view: View, d: Device, collide: bool): seq<string> { view.details(d, !collide) }

  function Normal(view: View, text: string): string { view.normal(text) }

  function Sorted(view: View, devices: seq<Device>): seq<Device> { Sort(view.order, devices) }

  // ----- row keys -----

  datatype Key = HeaderKey(n: nat, group: string) | CardKey(name: string)

  function Digits(n: nat): string {
    (if n < 10 then "" else Digits(n / 10)) + [('0' as int + n % 10) as char]
  }

  /** The string the program uses as a key. */
  function KeyText(k: Key): string {
    match k
    case HeaderKey(n, group) => "hdr:" + Digits(n) + ":" + group
    case CardKey(name) => "card:" + name
  }

  lemma {:induction false} DigitsAreDigits(n: nat)
    ensures |Digits(n)| > 0 && forall c :: c in Digits(n) ==> '0' <= c <= '9'
  {
    if n >= 10 {
      DigitsAreDigits(n / 10);
    }
  }

  lemma {:induction false} DigitsTellNumbersApart(m: nat, n: nat)
    requires Digits(m) == Digits(n)
    ensures m == n
  {
    var (a, b) := (Digits(m), Digits(n));
    assert a[|a| - 1] == ('0' as int + m % 10) as char && b[|b| - 1] == ('0' as int + n % 10) as char;
    assert m % 10 == n % 10;
    if m >= 10 { DigitsAreDigits(m / 10); }
    if n >= 10 { DigitsAreDigits(n / 10); }
    if m >= 10 && n >= 10 {
      assert a[..|a| - 1] == Digits(m / 10) && b[..|b| - 1] == Digits(n / 10);
      DigitsTellNumbersApart(m / 10, n / 10);
    }
  }

  function ColonAt(s: string): nat { if s == "" || s[0] == ':' then 0 else 1 + ColonAt(s[1..]) }

  lemma {:induction false} FirstColon(a: string, x: string)
    requires ':' !in a
    ensures ColonAt(a + ":" + x) == |a|
  {
    if a != "" {
      assert (a + ":" + x)[1..] == a[1..] + ":" + x;
      FirstColon(a[1..], x);
    }
  }

  lemma UpToColon(a: string, x: string, b: string, y: string)
    requires a + ":" + x == b + ":" + y && ':' !in a && ':' !in b
    ensures a == b && x == y
  {
    FirstColon(a, x);
    FirstColon(b, y);
    var (s, t) := (a + ":" + x, b + ":" + y);
    assert s[..|a|] == a && t[..|b|] == b && s[|a| + 1..] == x && t[|b| + 1..] == y;
  }

  lemma CardKeyText(name: string)
    ensures KeyText(CardKey(name))[0] == 'c' && "card:" <= KeyText(CardKey(name)) && KeyText(CardKey(name))[5..] == name
  {
    assert |"card:"| == 5 && "card:"[0] == 'c';
  }

  lemma HeaderKeyText(n: nat, group: string)
    ensures KeyText(HeaderKey(n, group))[0] == 'h' && KeyText(HeaderKey(n, group))[4..] == Digits(n) + ":" + group
  {
    assert |"hdr:"| == 4 && "hdr:"[0] == 'h';
    assert KeyText(HeaderKey(n, group)) == "hdr:" + (Digits(n) + ":" + group);
  }

  lemma HeaderKeysDiffer(m: nat, g: string, n: nat, h: string)
    requires KeyText(HeaderKey(m, g)) == KeyText(HeaderKey(n, h))
    ensures m == n && g == h
  {
    HeaderKeyText(m, g);
    HeaderKeyText(n, h);
    DigitsAreDigits(m);
    DigitsAreDigits(n);
    UpToColon(Digits(m), g, Digits(n), h);
    DigitsTellNumbersApart(m, n);
  }

  /** Key strings tell the rows apart, and the test `startswith("card:")` with the cut
      at position 5 recovers the device name. */
  lemma KeyTextsTellKeysApart(a: Key, b: Key)
    ensures KeyText(a) == KeyText(b) ==> a == b
    ensures a.CardKey? <==> "card:" <= KeyText(a)
    ensures a.CardKey? ==> KeyText(a)[5..] == a.name
  {
    match a {
      case CardKey(name) => CardKeyText(name);
      case HeaderKey(n, group) => HeaderKeyText(n, group);
    }
    match b {
      case CardKey(name) => CardKeyText(name);
      case HeaderKey(n, group) => HeaderKeyText(n, group);
    }
    assert "card:"[0] == 'c';
    if KeyText(a) == KeyText(b) && a.HeaderKey? {
      HeaderKeysDiffer(a.n, a.group, b.n, b.group);
    }
  }

  // ----- the desired rows -----

  datatype Want = WantHeader(n: nat, group: string) | WantCard(device: Device, collide: bool)

  function WantKey(w: Want): Key {
    match w
    case WantHeader(n, group) => HeaderKey(n, group)
    case WantCard(d, _) => CardKey(d.name)
  }

  /** Python's `x in y` on strings. */
  predicate Within(x: string, y: string) { x <= y || (y != "" && Within(x, y[1..])) }

  lemma PlaceInTail(x: string, y: string, a: string, b: string)
    requires y != "" && a + x + b == y[1..]
    ensures ([y[0]] + a) + x + b == y
  {
    assert ([y[0]] + a) + x + b == [y[0]] + (a + x + b);
  }

  lemma {:induction false} WithinHasPlace(x: string, y: string)
    requires Within(x, y)
    ensures exists a, b :: a + x + b == y
  {
    if x <= y {
      assert "" + x + y[|x|..] == y;
    } else {
      WithinHasPlace(x, y[1..]);
      var a, b :| a + x + b == y[1..];
      PlaceInTail(x, y, a, b);
    }
  }

  lemma {:induction false} PlaceIsWithin(a: string, x: string, b: string)
    ensures Within(x, a + x + b)
  {
    if a == "" {
      assert a + x + b == x + b;
    } else {
      PlaceIsWithin(a[1..], x, b);
      assert (a + x + b)[1..] == a[1..] + x + b;
    }
  }

  function Matches(view: View, query: string): Device -> bool {
    (d: Device) => d.isInstalled && (query == "" || Within(query, view.haystack(d)))
  }

  function Filtered(view: View, query: string, devices: seq<Device>): seq<Device> {
    Filter(Matches(view, query), devices)
  }

  function Title(view: View, d: Device): (string, string) { (view.group(d), view.osTitle(d)) }

  function HasTitle(view: View, title: (string, string)): Device -> bool { (d: Device) => Title(view, d) == title }

  /** More than one shown device has this device's group and title. */
  predicate Collides(view: View, shown: seq<Device>, d: Device) { |Filter(HasTitle(view, Title(view, d)), shown)| > 1 }

  function IsHeaderOf(group: string): Want -> bool { (w: Want) => w.WantHeader? && w.group == group }

  function HeaderCount(wants: seq<Want>, group: string): nat { |Filter(IsHeaderOf(group), wants)| }

  /** A header wherever the group changes, numbered per group, and a card per device. */
  function Wants(view: View, shown: seq<Device>, ds: seq<Device>): seq<Want> {
    if ds == [] then []
    else
      var (front, d) := (ds[..|ds| - 1], ds[|ds| - 1]);
      var before := Wants(view, shown, front);
      before + HeaderFor(view, before, front, d) + [WantCard(d, Collides(view, shown, d))]
  }

  function HeaderFor(view: View, before: seq<Want>, front: seq<Device>, d: Device): seq<Want> {
    var group := view.group(d);
    if front == [] || view.group(front[|front| - 1]) != group then [WantHeader(HeaderCount(before, group), group)] else []
  }

  function Desired(view: View, query: string, devices: seq<Device>): seq<Want> {
    var shown := Filtered(view, query, devices);
    Wants(view, shown, shown)
  }

  /** A device is shown exactly when it is installed and the query is empty or part of
      its search text. */
  lemma ShownExactly(view: View, query: string, devices: seq<Device>, d: Device)
    ensures
      d in Filtered(view, query, devices)
      <==> d in devices && d.isInstalled && (query == "" || exists a, b :: a + query + b == view.haystack(d))
  {
    FilterFacts(Matches(view, query), devices);
    if Within(query, view.haystack(d)) {
      WithinHasPlace(query, view.haystack(d));
    }
    if exists a, b :: a + query + b == view.haystack(d) {
      var a, b :| a + query + b == view.haystack(d);
      PlaceIsWithin(a, query, b);
    }
  }

  /** Two different places of the list hold devices of this group and title. */
  ghost predicate TitledTwice(view: View, shown: seq<Device>, group: string, title: string) {
    exists i, j :: 0 <= i < j < |shown| && Titled(view, shown[i], group, title) && Titled(view, shown[j], group, title)
  }

  predicate Titled(view: View, d: Device, group: string, title: string) { view.group(d) == group && view.osTitle(d) == title }

  lemma {:induction false} TitleCounts(view: View, shown: seq<Device>, group: string, title: string)
    ensures
      var n := |Filter(HasTitle(view, (group, title)), shown)|;
      && (n > 0 <==> exists j :: 0 <= j < |shown| && Titled(view, shown[j], group, title))
      && (n > 1 <==> TitledTwice(view, shown, group, title))
  {
    if shown != [] {
      var rest := shown[1..];
      TitleCounts(view, rest, group, title);
      assert forall j :: 0 < j < |shown| ==> shown[j] == rest[j - 1];
      if TitledTwice(view, rest, group, title) {
        var i, j :| 0 <= i < j < |rest| && Titled(view, rest[i], group, title) && Titled(view, rest[j], group, title);
        assert Titled(view, shown[i + 1], group, title) && Titled(view, shown[j + 1], group, title);
      }
      if exists j :: 0 <= j < |rest| && Titled(view, rest[j], group, title) {
        var j :| 0 <= j < |rest| && Titled(view, rest[j], group, title);
        assert Titled(view, shown[j + 1], group, title);
      }
    }
  }

  /** A card is marked exactly when its group and title are shown twice. */
  lemma CollidesExactly(view: View, shown: seq<Device>, d: Device)
    ensures Collides(view, shown, d) <==> TitledTwice(view, shown, view.group(d), view.osTitle(d))
  {
    TitleCounts(view, shown, view.group(d), view.osTitle(d));
  }

  /** No two installed devices share a directory. */
  ghost predicate DistinctNames(devices: seq<Device>) {
    forall i, j :: 0 <= i < j < |devices| && devices[i].isInstalled && devices[j].isInstalled ==>
      devices[i].name != devices[j].name
  }

  ghost predicate AllNamesDiffer(ds: seq<Device>) { forall i, j :: 0 <= i < j < |ds| ==> ds[i].name != ds[j].name }

  ghost predicate DistinctKeys(wants: seq<Want>) {
    forall i, j :: 0 <= i < j < |wants| ==> WantKey(wants[i]) != WantKey(wants[j])
  }

  lemma {:induction false} FilteredNamesDiffer(p: Device -> bool, devices: seq<Device>)
    requires DistinctNames(devices) && forall d :: p(d) ==> d.isInstalled
    ensures AllNamesDiffer(Filter(p, devices))
  {
    if devices != [] {
      var rest := devices[1..];
      assert forall i :: 0 <= i < |rest| ==> rest[i] == devices[i + 1];
      FilteredNamesDiffer(p, rest);
      if p(devices[0]) {
        NameIsNew(p, devices);
        NewNameInFront(devices[0], Filter(p, rest));
      }
    }
  }

  lemma NameIsNew(p: Device -> bool, devices: seq<Device>)
    requires devices != [] && p(devices[0]) && DistinctNames(devices) && forall d :: p(d) ==> d.isInstalled
    ensures forall d :: d in Filter(p, devices[1..]) ==> d.name != devices[0].name
  {
    FilterFacts(p, devices[1..]);
    forall d | d in Filter(p, devices[1..])
      ensures d.name != devices[0].name
    {
      var j :| 1 <= j < |devices| && devices[j] == d;
    }
  }

  lemma NewNameInFront(d: Device, ds: seq<Device>)
    requires AllNamesDiffer(ds) && forall x :: x in ds ==> x.name != d.name
    ensures AllNamesDiffer([d] + ds)
  {}

  /** The cards are the devices, in order; the headers of a group count up from 0. */
  ghost predicate WellNumbered(wants: seq<Want>, ds: seq<Device>) {
    && (forall w :: w in wants && w.WantCard? ==> w.device in ds)
    && forall w :: w in wants && w.WantHeader? ==> w.n < HeaderCount(wants, w.group)
  }

  lemma HeaderCountAppend(a: seq<Want>, b: seq<Want>, group: string)
    ensures HeaderCount(a + b, group) == HeaderCount(a, group) + HeaderCount(b, group)
  {
    FilterAppend(IsHeaderOf(group), a, b);
  }

  lemma OneHeader(w: Want, group: string)
    ensures HeaderCount([w], group) == if IsHeaderOf(group)(w) then 1 else 0
  {
    assert [w][1..] == [];
    assert Filter(IsHeaderOf(group), [w][1..]) == [];
  }

  /** One more row at the end. */
  lemma AppendWant(wants: seq<Want>, w: Want, ds: seq<Device>, more: seq<Device>)
    requires WellNumbered(wants, ds) && DistinctKeys(wants) && ds <= more
    requires w.WantCard? ==> w.device in more && forall d :: d in ds ==> d.name != w.device.name
    requires w.WantHeader? ==> w.n == HeaderCount(wants, w.group)
    ensures WellNumbered(wants + [w], more) && DistinctKeys(wants + [w])
  {
    var all := wants + [w];
    forall x | x in wants
      ensures WantKey(x) != WantKey(w)
    {}
    forall x | x in all && x.WantHeader?
      ensures x.n < HeaderCount(all, x.group)
    {
      HeaderCountAppend(wants, [w], x.group);
      OneHeader(w, x.group);
    }
    forall i, j | 0 <= i < j < |all|
      ensures WantKey(all[i]) != WantKey(all[j])
    {
      assert all[i] == wants[i] && wants[i] in wants;
    }
  }

  /** No two rows have one key. */
  lemma {:induction false} WantsAreDistinct(view: View, shown: seq<Device>, ds: seq<Device>)
    requires AllNamesDiffer(ds)
    ensures WellNumbered(Wants(view, shown, ds), ds) && DistinctKeys(Wants(view, shown, ds))
  {
    if ds != [] {
      var (front, d) := (ds[..|ds| - 1], ds[|ds| - 1]);
      WantsAreDistinct(view, shown, front);
      var before := Wants(view, shown, front);
      var header := HeaderFor(view, before, front, d);
      if header != [] {
        AppendWant(before, header[0], front, front);
      } else {
        assert before + header == before;
      }
      AppendWant(before + header, WantCard(d, Collides(view, shown, d)), front, ds);
    }
  }

  lemma DesiredKeysDiffer(view: View, query: string, devices: seq<Device>)
    requires DistinctNames(devices)
    ensures DistinctKeys(Desired(view, query, devices))
  {
    FilteredNamesDiffer(Matches(view, query), devices);
    KeysDifferExactly(view, query, devices);
  }

  lemma {:induction false} CardIsThere(view: View, shown: seq<Device>, ds: seq<Device>, i: nat)
    requires i < |ds|
    ensures WantCard(ds[i], Collides(view, shown, ds[i])) in Wants(view, shown, ds)
    decreases |ds|
  {
    var front := ds[..|ds| - 1];
    if i < |front| {
      CardIsThere(view, shown, front, i);
      assert front[i] == ds[i];
    }
  }

  /** The cards of two devices are two rows. */
  lemma {:induction false} TwoCards(view: View, shown: seq<Device>, ds: seq<Device>, i: nat, j: nat)
    requires i < j < |ds| && ds[i].name == ds[j].name
    ensures !DistinctKeys(Wants(view, shown, ds))
    decreases |ds|
  {
    var (front, d) := (ds[..|ds| - 1], ds[|ds| - 1]);
    var before := Wants(view, shown, front);
    var wants := Wants(view, shown, ds);
    assert before <= wants;
    if j < |front| {
      TwoCards(view, shown, front, i, j);
      var a, b :| 0 <= a < b < |before| && WantKey(before[a]) == WantKey(before[b]);
      assert wants[a] == before[a] && wants[b] == before[b];
    } else {
      CardIsThere(view, shown, front, i);
      var a :| 0 <= a < |before| && before[a] == WantCard(front[i], Collides(view, shown, front[i]));
      assert wants[a] == before[a];
      assert WantKey(wants[a]) == WantKey(wants[|wants| - 1]);
    }
  }

  /** The rows have distinct keys if and only if no two devices shown share a name. */
  lemma KeysDifferExactly(view: View, query: string, devices: seq<Device>)
    ensures DistinctKeys(Desired(view, query, devices)) <==> AllNamesDiffer(Filtered(view, query, devices))
  {
    var shown := Filtered(view, query, devices);
    if AllNamesDiffer(shown) {
      WantsAreDistinct(view, shown, shown);
    } else {
      var i, j :| 0 <= i < j < |shown| && shown[i].name == shown[j].name;
      TwoCards(view, shown, shown, i, j);
    }
  }

  /** The cards among the rows. */
  function CardsOf(wants: seq<Want>): seq<Device> {
    if wants == [] then []
    else
      var (front, last) := (CardsOf(wants[..|wants| - 1]), wants[|wants| - 1]);
      if last.WantCard? then front + [last.device] else front
  }

  lemma CardsOfAppend(wants: seq<Want>, w: Want)
    ensures CardsOf(wants + [w]) == if w.WantCard? then CardsOf(wants) + [w.device] else CardsOf(wants)
  {
    assert (wants + [w])[..|wants + [w]| - 1] == wants;
  }

  /** What may stand under what: a header heads its own group, cards of one group stand
      together, and the next header names another group. */
  predicate Under(view: View, above: Want, below: Want) {
    if above.WantHeader? then below.WantCard? && view.group(below.device) == above.group
    else if below.WantCard? then view.group(below.device) == view.group(above.device)
    else below.group != view.group(above.device)
  }

  ghost predicate Headed(view: View, w: seq<Want>) {
    && (w != [] ==> w[0].WantHeader?)
    && forall i, j :: 0 <= i && j == i + 1 && j < |w| ==> Under(view, w[i], w[j])
  }

  lemma HeadedAppend(view: View, w: seq<Want>, x: Want)
    requires Headed(view, w) && if w == [] then x.WantHeader? else Under(view, w[|w| - 1], x)
    ensures Headed(view, w + [x])
  {}

  /** The rows end with the card of the last device. */
  predicate EndsWith(w: seq<Want>, ds: seq<Device>) {
    if ds == [] then w == [] else w != [] && w[|w| - 1].WantCard? && w[|w| - 1].device == ds[|ds| - 1]
  }

  /** The cards are the devices in order, under their headers. */
  ghost predicate Shown(view: View, w: seq<Want>, ds: seq<Device>) {
    CardsOf(w) == ds && Headed(view, w) && EndsWith(w, ds)
  }

  lemma ShowNext(view: View, w: seq<Want>, ds: seq<Device>, d: Device, collide: bool)
    requires Shown(view, w, ds)
    requires ds != [] && view.group(ds[|ds| - 1]) == view.group(d)
    ensures Shown(view, w + [WantCard(d, collide)], ds + [d])
  {
    CardsOfAppend(w, WantCard(d, collide));
    HeadedAppend(view, w, WantCard(d, collide));
  }

  lemma ShowUnderHeader(view: View, w: seq<Want>, ds: seq<Device>, n: nat, d: Device, collide: bool)
    requires Shown(view, w, ds)
    requires ds != [] ==> view.group(ds[|ds| - 1]) != view.group(d)
    ensures Shown(view, w + [WantHeader(n, view.group(d))] + [WantCard(d, collide)], ds + [d])
  {
    var header := WantHeader(n, view.group(d));
    CardsOfAppend(w, header);
    HeadedAppend(view, w, header);
    CardsOfAppend(w + [header], WantCard(d, collide));
    HeadedAppend(view, w + [header], WantCard(d, collide));
  }

  /** The rows show exactly the matching devices, in their order; each run of cards of
      one group is headed by that group, and no header stands alone. */
  lemma {:induction false} WantsShowDevices(view: View, shown: seq<Device>, ds: seq<Device>)
    ensures Shown(view, Wants(view, shown, ds), ds)
  {
    if ds != [] {
      var (front, d) := (ds[..|ds| - 1], ds[|ds| - 1]);
      WantsShowDevices(view, shown, front);
      var before := Wants(view, shown, front);
      var (header, collide) := (HeaderFor(view, before, front, d), Collides(view, shown, d));
      assert ds == front + [d];
      if header == [] {
        assert before + header == before;
        ShowNext(view, before, front, d, collide);
      } else {
        ShowUnderHeader(view, before, front, header[0].n, d, collide);
      }
    }
  }

  lemma {:induction false} CardsAreMarked(view: View, shown: seq<Device>, ds: seq<Device>, w: Want)
    requires w in Wants(view, shown, ds) && w.WantCard?
    ensures w.device in ds && w.collide == Collides(view, shown, w.device)
  {
    var (front, d) := (ds[..|ds| - 1], ds[|ds| - 1]);
    var before := Wants(view, shown, front);
    if w in before {
      CardsAreMarked(view, shown, front, w);
    } else {
      assert w in HeaderFor(view, before, front, d) + [WantCard(d, Collides(view, shown, d))];
    }
  }

  /** The card of a row is that of an installed device that matches the query, marked if
      another one shown has its group and title. */
  lemma DesiredCard(view: View, query: string, devices: seq<Device>, w: Want)
    requires w in Desired(view, query, devices) && w.WantCard?
    ensures
      var d := w.device;
      && d in devices && d.isInstalled && (query == "" || exists a, b :: a + query + b == view.haystack(d))
      && (w.collide <==> TitledTwice(view, Filtered(view, query, devices), view.group(d), view.osTitle(d)))
  {
    var shown := Filtered(view, query, devices);
    CardsAreMarked(view, shown, shown, w);
    ShownExactly(view, query, devices, w.device);
    CollidesExactly(view, shown, w.device);
  }

  // ----- the list as a machine -----

  datatype Model = Model(
    devices: seq<Device>, query: string, palette: Palette, selected: Option<string>, hovered: Option<string>)

  datatype Event =
    | Reload(devices: seq<Device>)
    | SetQuery(text: string)
    | Retheme(palette: Palette)
    | UpdateRuntime(palette: Palette)
    | Select(name: string)
    | Hover(over: Option<string>)

  function Names(wants: seq<Want>): seq<string> {
    var ds := CardsOf(wants);
    seq(|ds|, i requires 0 <= i < |ds| => ds[i].name)
  }

  function ShownNames(view: View, m: Model): seq<string> { Names(Desired(view, m.query, m.devices)) }

  /** The end of `_reconcile`: a selection or hover that is no longer shown is replaced. */
  function SettleOn(m: Model, names: seq<string>): Model {
    m.(selected := if m.selected.Some? && m.selected.value in names then m.selected
                   else if names != [] then Some(names[0]) else None,
       hovered := if m.hovered.Some? && m.hovered.value in names then m.hovered else None)
  }

  function Settled(view: View, m: Model): Model { SettleOn(m, ShownNames(view, m)) }

  function After(view: View, m: Model, e: Event): Model {
    match e
    case Reload(devices) => Settled(view, m.(devices := Sorted(view, devices)))
    case SetQuery(text) => Settled(view, m.(query := Normal(view, text)))
    case Retheme(palette) => Settled(view, m.(palette := palette))
    case UpdateRuntime(palette) => m.(palette := palette)
    case Select(name) => if name in ShownNames(view, m) then m.(selected := Some(name)) else m
    case Hover(over) => m.(hovered := over)
  }

  function Start(palette: Palette): Model { Model([], "", palette, None, None) }

  function Run(view: View, m: Model, events: seq<Event>): Model {
    if events == [] then m
    else After(view, Run(view, m, events[..|events| - 1]), events[|events| - 1])
  }

  /** `selection` returns a shown device whenever one is shown. */
  ghost predicate SelectionIsShown(view: View, m: Model) {
    if m.selected.Some? then m.selected.value in ShownNames(view, m) else ShownNames(view, m) == []
  }

  lemma SettledShows(view: View, m: Model)
    ensures ShownNames(view, Settled(view, m)) == ShownNames(view, m)
    ensures SelectionIsShown(view, Settled(view, m))
    ensures m.selected.Some? && m.selected.value in ShownNames(view, m) ==> Settled(view, m).selected == m.selected
  {
    var names := ShownNames(view, m);
    assert names != [] ==> names[0] in names;
  }

  lemma EventKeepsSelection(view: View, m: Model, e: Event)
    requires SelectionIsShown(view, m)
    ensures SelectionIsShown(view, After(view, m, e))
  {
    match e
    case Reload(devices) => SettledShows(view, m.(devices := Sorted(view, devices)));
    case SetQuery(text) => SettledShows(view, m.(query := Normal(view, text)));
    case Retheme(palette) => SettledShows(view, m.(palette := palette));
    case UpdateRuntime(palette) => assert ShownNames(view, After(view, m, e)) == ShownNames(view, m);
    case Select(name) => assert ShownNames(view, After(view, m, e)) == ShownNames(view, m);
    case Hover(over) => assert ShownNames(view, After(view, m, e)) == ShownNames(view, m);
  }

  /** Over every run of events some shown device is selected whenever one is shown. */
  lemma {:induction false} AlwaysASelection(view: View, palette: Palette, events: seq<Event>)
    ensures SelectionIsShown(view, Run(view, Start(palette), events))
  {
    if events == [] {
      assert ShownNames(view, Start(palette)) == [];
    } else {
      AlwaysASelection(view, palette, events[..|events| - 1]);
      EventKeepsSelection(view, Run(view, Start(palette), events[..|events| - 1]), events[|events| - 1]);
    }
  }

  /** A selected device stays selected as long as it is shown and nothing else is selected. */
  lemma SelectionStays(view: View, m: Model, e: Event)
    requires m.selected.Some? && m.selected.value in ShownNames(view, After(view, m, e))
    requires e.Select? && e.name in ShownNames(view, m) ==> e.name == m.selected.value
    ensures After(view, m, e).selected == m.selected
  {
    match e
    case Reload(devices) => SettledShows(view, m.(devices := Sorted(view, devices)));
    case SetQuery(text) => SettledShows(view, m.(query := Normal(view, text)));
    case Retheme(palette) => SettledShows(view, m.(palette := palette));
    case _ =>
  }

  // ----- the loops of `_refill` -----

  method FilterDevices(view: View, query: string, devices: seq<Device>) returns (filtered: seq<Device>)
    ensures filtered == Filtered(view, query, devices)
  {
    filtered := [];
    for i := 0 to |devices|
      invariant filtered == Filtered(view, query, devices[..i])
    {
      var d := devices[i];
      FilterAppend(Matches(view, query), devices[..i], [d]);
      assert devices[..i + 1] == devices[..i] + [d] && [d][1..] == [];
      if d.isInstalled && (query == "" || Within(query, view.haystack(d))) {
        filtered := filtered + [d];
      }
    }
    assert devices[..|devices|] == devices;
  }

  function CountIn<T>(counts: map<T, nat>, x: T): nat { if x in counts then counts[x] else 0 }

  lemma TitleCount(view: View, ds: seq<Device>, d: Device, title: (string, string))
    ensures
      |Filter(HasTitle(view, title), ds + [d])|
      == |Filter(HasTitle(view, title), ds)| + if Title(view, d) == title then 1 else 0
  {
    FilterAppend(HasTitle(view, title), ds, [d]);
    assert [d][1..] == [];
    assert Filter(HasTitle(view, title), [d][1..]) == [];
  }

  method CountTitles(view: View, ds: seq<Device>) returns (counts: map<(string, string), nat>)
    ensures forall title :: CountIn(counts, title) == |Filter(HasTitle(view, title), ds)|
  {
    counts := map[];
    for i := 0 to |ds|
      invariant forall title :: CountIn(counts, title) == |Filter(HasTitle(view, title), ds[..i])|
    {
      ghost var before := counts;
      var title := Title(view, ds[i]);
      counts := counts[title := CountIn(counts, title) + 1];
      assert ds[..i + 1] == ds[..i] + [ds[i]];
      forall other
        ensures CountIn(counts, other) == |Filter(HasTitle(view, other), ds[..i + 1])|
      {
        TitleCount(view, ds[..i], ds[i], other);
        assert CountIn(counts, other) == CountIn(before, other) + if other == title then 1 else 0;
      }
    }
    assert ds[..|ds|] == ds;
  }

  lemma CountHeader(wants: seq<Want>, w: Want, group: string)
    ensures HeaderCount(wants + [w], group) == HeaderCount(wants, group) + if IsHeaderOf(group)(w) then 1 else 0
  {
    HeaderCountAppend(wants, [w], group);
    OneHeader(w, group);
  }

  /** A card changes no header count. */
  lemma CountCard(wants: seq<Want>, d: Device, collide: bool, group: string)
    ensures HeaderCount(wants + [WantCard(d, collide)], group) == HeaderCount(wants, group)
  {
    CountHeader(wants, WantCard(d, collide), group);
  }

  /** The counts of headers after one more. */
  lemma CountsAfterHeader(headers: map<string, nat>, wants: seq<Want>, group: string)
    requires forall g :: CountIn(headers, g) == HeaderCount(wants, g)
    ensures
      var n := CountIn(headers, group);
      forall g :: CountIn(headers[group := n + 1], g) == HeaderCount(wants + [WantHeader(n, group)], g)
  {
    var n := CountIn(headers, group);
    var m := n + 1;
    forall g
      ensures CountIn(headers[group := m], g) == HeaderCount(wants + [WantHeader(n, group)], g)
    {
      CountHeader(wants, WantHeader(n, group), g);
      assert CountIn(headers[group := m], g) == CountIn(headers, g) + if g == group then 1 else 0;
    }
  }

  datatype Building = Building(desired: seq<Want>, last: Option<string>, headers: map<string, nat>)

  /** What the loop has built from the first devices. */
  ghost predicate Built(b: Building, view: View, filtered: seq<Device>, n: nat)
    requires n <= |filtered|
  {
    && b.desired == Wants(view, filtered, filtered[..n])
    && b.last == (if n == 0 then None else Some(view.group(filtered[n - 1])))
    && forall g :: CountIn(b.headers, g) == HeaderCount(b.desired, g)
  }

  /** The header before a device, if its group is new. */
  method AddHeader(b: Building, view: View, group: string) returns (after: Building)
    requires forall g :: CountIn(b.headers, g) == HeaderCount(b.desired, g)
    ensures forall g :: CountIn(after.headers, g) == HeaderCount(after.desired, g)
    ensures after.last == Some(group)
    ensures
      after.desired
      == b.desired + if Some(group) != b.last then [WantHeader(HeaderCount(b.desired, group), group)] else []
  {
    after := b;
    if Some(group) != b.last {
      var n := CountIn(b.headers, group);
      CountsAfterHeader(b.headers, b.desired, group);
      after := Building(b.desired + [WantHeader(n, group)], Some(group), b.headers[group := n + 1]);
    } else {
      assert b.desired + [] == b.desired;
    }
  }

  lemma NextWants(view: View, filtered: seq<Device>, i: nat)
    requires i < |filtered|
    ensures
      var (front, d) := (filtered[..i], filtered[i]);
      var before := Wants(view, filtered, front);
      Wants(view, filtered, filtered[..i + 1])
      == before + HeaderFor(view, before, front, d) + [WantCard(d, Collides(view, filtered, d))]
  {
    assert filtered[..i + 1][..i] == filtered[..i];
  }

  method BuildNext(b: Building, view: View, filtered: seq<Device>, titles: map<(string, string), nat>, i: nat)
    returns (after: Building)
    requires i < |filtered| && Built(b, view, filtered, i)
    requires forall title :: CountIn(titles, title) == |Filter(HasTitle(view, title), filtered)|
    ensures Built(after, view, filtered, i + 1)
  {
    var d := filtered[i];
    NextWants(view, filtered, i);
    after := AddHeader(b, view, view.group(d));
    var collide := CountIn(titles, Title(view, d)) > 1;
    forall g
      ensures HeaderCount(after.desired + [WantCard(d, collide)], g) == HeaderCount(after.desired, g)
    {
      CountCard(after.desired, d, collide, g);
    }
    after := after.(desired := after.desired + [WantCard(d, collide)]);
  }

  method BuildDesired(view: View, filtered: seq<Device>) returns (desired: seq<Want>)
    ensures desired == Wants(view, filtered, filtered)
  {
    var titles := CountTitles(view, filtered);
    var b := Building([], None, map[]);
    for i := 0 to |filtered|
      invariant Built(b, view, filtered, i)
    {
      b := BuildNext(b, view, filtered, titles, i);
    }
    assert filtered[..|filtered|] == filtered;
    desired := b.desired;
  }
}
