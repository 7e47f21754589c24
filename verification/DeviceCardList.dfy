/** The device card list at work (launcher/device_card_list.py): rows and cards are
    kept from one fill to the next and edited in place, and always show what a list
    built from nothing would show. */
module DeviceCardList {
  import opened Options
  import opened StableSort
  import opened CardRows

  /** A card on the canvas. */
  class Card {
    const tag: nat
    var device: Device
    var collide: bool
    var heading: string
    var details: seq<string>
    var colour: Colour

    constructor (tag: nat, d: Device, collide: bool)
      ensures this.tag == tag
    {
      this.tag, device, this.collide := tag, d, collide;
      heading, details, colour := "", [], "";
    }
  }

  datatype Row = HeaderRow(text: string) | CardRow(card: Card)

  // ----- what is on the canvas -----

  datatype Look =
    | HeaderLook(text: string)
    | CardLook(device: Device, collide: bool, heading: string, details: seq<string>, colour: Colour)

  /** `_paint`. */
  function PaintOf(m: Model, d: Device): Colour {
    if m.selected == Some(d.name) then Shade(m.palette, Chosen, d)
    else if m.hovered == Some(d.name) then Shade(m.palette, Pointed, d)
    else Shade(m.palette, Plain, d)
  }

  function LookOf(view: View, m: Model, w: Want): Look {
    match w
    case WantHeader(_, group) => HeaderLook(group)
    case WantCard(d, collide) => CardLook(d, collide, Heading(view, d, collide), Details(view, d, collide), PaintOf(m, d))
  }

  /** The canvas of a list built from nothing in this state. */
  function Rebuilt(view: View, m: Model): seq<Look> {
    var wants := Desired(view, m.query, m.devices);
    seq(|wants|, i requires 0 <= i < |wants| => LookOf(view, m, wants[i]))
  }

  /** Neither the old and new selection nor the old and new hover: the colour stays. */
  lemma ColourStays(m: Model, after: Model, d: Device)
    requires after.palette == m.palette
    requires m.selected == Some(d.name) <==> after.selected == Some(d.name)
    requires m.hovered == Some(d.name) <==> after.hovered == Some(d.name)
    ensures PaintOf(after, d) == PaintOf(m, d)
  {}

  lemma SettledIs(view: View, m: Model, wants: seq<Want>)
    requires wants == Desired(view, m.query, m.devices)
    ensures Settled(view, m) == SettleOn(m, Names(wants))
  {}

  // ----- keys and names of the rows -----

  function Keys(wants: seq<Want>): seq<Key> {
    seq(|wants|, i requires 0 <= i < |wants| => WantKey(wants[i]))
  }

  function FirstKeys(wants: seq<Want>, n: nat): set<Key>
    requires n <= |wants|
  {
    set i | 0 <= i < n :: WantKey(wants[i])
  }

  lemma FirstKeysStep(wants: seq<Want>, n: nat)
    requires n < |wants|
    ensures FirstKeys(wants, n + 1) == FirstKeys(wants, n) + {WantKey(wants[n])}
  {}

  lemma FirstKeysAre(wants: seq<Want>)
    ensures FirstKeys(wants, 0) == {}
    ensures forall k :: k in FirstKeys(wants, |wants|) <==> k in Keys(wants)
  {
    forall k | k in FirstKeys(wants, |wants|)
      ensures k in Keys(wants)
    {
      var i :| 0 <= i < |wants| && WantKey(wants[i]) == k;
      assert Keys(wants)[i] == k;
    }
    forall k | k in Keys(wants)
      ensures k in FirstKeys(wants, |wants|)
    {
      var i :| 0 <= i < |wants| && Keys(wants)[i] == k;
      assert WantKey(wants[i]) == k;
    }
  }

  function NamesIn(order: seq<Key>): seq<string> {
    if order == [] then []
    else
      var (front, k) := (NamesIn(order[..|order| - 1]), order[|order| - 1]);
      if k.CardKey? then front + [k.name] else front
  }

  lemma {:induction false} NamesInKeys(wants: seq<Want>)
    ensures NamesIn(Keys(wants)) == Names(wants)
  {
    if wants != [] {
      var front := wants[..|wants| - 1];
      NamesInKeys(front);
      assert Keys(wants)[..|wants| - 1] == Keys(front);
      assert Names(wants) == if wants[|wants| - 1].WantCard? then Names(front) + [wants[|wants| - 1].device.name] else Names(front);
    }
  }

  lemma {:induction false} NamesInAre(order: seq<Key>, n: string)
    ensures n in NamesIn(order) <==> CardKey(n) in order
  {
    if order != [] {
      NamesInAre(order[..|order| - 1], n);
    }
  }

  // ----- sorting keeps the premise -----

  lemma {:induction false} SortIsPermutation(leq: (Device, Device) -> bool, xs: seq<Device>)
    ensures multiset(Sort(leq, xs)) == multiset(xs)
  {
    if xs != [] {
      SortIsPermutation(leq, xs[1..]);
      InsertIsPermutation(leq, xs[0], Sort(leq, xs[1..]));
      assert xs == [xs[0]] + xs[1..];
    }
  }

  lemma {:induction false} InstalledOnce(devices: seq<Device>, d: Device)
    requires DistinctNames(devices) && d.isInstalled
    ensures multiset(devices)[d] <= 1
  {
    if devices != [] {
      var rest := devices[1..];
      assert forall i :: 0 <= i < |rest| ==> rest[i] == devices[i + 1];
      InstalledOnce(rest, d);
      assert devices == [devices[0]] + rest;
      if devices[0] == d {
        assert d !in rest;
        assert multiset(rest)[d] == 0;
      }
    }
  }

  lemma PermutedNamesDiffer(a: seq<Device>, b: seq<Device>)
    requires DistinctNames(a) && multiset(a) == multiset(b)
    ensures DistinctNames(b)
  {
    forall i, j | 0 <= i < j < |b| && b[i].isInstalled && b[j].isInstalled
      ensures b[i].name != b[j].name
    {
      assert b[i] in multiset(a) && b[j] in multiset(a);
      if b[i] == b[j] {
        TwoOccurrences(b, i, j);
        InstalledOnce(a, b[i]);
      }
    }
  }

  // ----- the list -----

  class CardList {
    const view: View
    var devices: seq<Device>
    var query: string
    var palette: Palette
    var selected: Option<string>
    var hovered: Option<string>
    var cards: map<string, Card>
    var rows: map<Key, Row>
    var order: seq<Key>
    var tagSerial: nat
    ghost var repr: set<Card>

    function Model(): Model
      reads this`devices, this`query, this`palette, this`selected, this`hovered
    {
      CardRows.Model(devices, query, palette, selected, hovered)
    }

    /** The card rows are exactly the cards, and no card serves two devices. */
    ghost predicate Wired()
      reads this`rows, this`cards, this`tagSerial, this`repr
    {
      && (forall k :: k in rows ==>
            if k.CardKey? then rows[k].CardRow? && k.name in cards && rows[k].card == cards[k.name]
            else rows[k] == HeaderRow(k.group))
      && (forall n :: n in cards ==> CardKey(n) in rows && cards[n] in repr && cards[n].tag <= tagSerial)
      && (forall m, n :: m in cards && n in cards && m != n ==> cards[m] != cards[n] && cards[m].tag != cards[n].tag)
    }

    /** The card of a device says what a new one would. */
    ghost predicate FilledAs(d: Device, collide: bool)
      reads this`cards, this`repr, repr`device, repr`collide, repr`heading, repr`details
    {
      && d.name in cards && cards[d.name] in repr
      && var card := cards[d.name];
      && card.device == d && card.collide == collide
      && card.heading == Heading(view, d, collide) && card.details == Details(view, d, collide)
    }

    ghost predicate FilledUpTo(wants: seq<Want>, n: nat)
      requires n <= |wants|
      reads this`cards, this`repr, repr`device, repr`collide, repr`heading, repr`details
    {
      forall i :: 0 <= i < n && wants[i].WantCard? ==> FilledAs(wants[i].device, wants[i].collide)
    }

    /** Rows, order and cards are those of the wanted rows. */
    ghost predicate Holds(wants: seq<Want>)
      reads this`rows, this`cards, this`order, this`repr, repr`device, repr`collide, repr`heading, repr`details
    {
      && order == Keys(wants) && DistinctKeys(wants)
      && (forall k :: k in rows <==> k in order)
      && FilledUpTo(wants, |wants|)
    }

    /** Every card has the colour a full repaint would give it. */
    ghost predicate Coloured()
      reads this, repr
    {
      forall n :: n in cards ==>
        cards[n] in repr && cards[n].device.name == n && cards[n].colour == PaintOf(Model(), cards[n].device)
    }

    ghost predicate Named()
      reads this`cards, this`repr, repr`device
    {
      forall n :: n in cards ==> cards[n] in repr && cards[n].device.name == n
    }

    /** The rows the devices and the query ask for. */
    ghost function Wanted(): seq<Want>
      reads this`devices, this`query
    {
      Desired(view, query, devices)
    }

    /** A shown device is selected whenever there is one. */
    ghost predicate HasSelection()
      reads this`selected, this`cards
    {
      if selected.Some? then selected.value in cards else cards == map[]
    }

    ghost predicate Valid()
      reads this, repr
    {
      DistinctNames(devices) && Wired() && Holds(Wanted()) && Coloured() && HasSelection()
    }

    /** What a row shows. */
    ghost function LookAt(k: Key): Look
      requires Wired() && k in rows
      reads this, repr
    {
      match rows[k]
      case HeaderRow(text) => HeaderLook(text)
      case CardRow(card) => CardLook(card.device, card.collide, card.heading, card.details, card.colour)
    }

    /** The canvas shows what a rebuild from nothing would. */
    lemma CanvasIsRebuilt()
      requires Valid()
      ensures |order| == |Rebuilt(view, Model())|
      ensures forall i :: 0 <= i < |order| ==> order[i] in rows && LookAt(order[i]) == Rebuilt(view, Model())[i]
    {
      var wants := Wanted();
      forall i | 0 <= i < |order|
        ensures order[i] in rows && LookAt(order[i]) == Rebuilt(view, Model())[i]
      {
        assert order[i] == WantKey(wants[i]);
        if wants[i].WantCard? {
          assert FilledAs(wants[i].device, wants[i].collide);
        }
      }
    }

    /** The cards are those of the shown devices. */
    lemma CardsAreShown(wants: seq<Want>)
      requires Wired() && order == Keys(wants) && forall k :: k in rows <==> k in order
      ensures forall n :: n in cards <==> n in Names(wants)
      ensures NamesIn(order) == Names(wants)
      ensures cards == map[] <==> Names(wants) == []
    {
      NamesInKeys(wants);
      forall n
        ensures n in cards <==> n in Names(wants)
      {
        NamesInAre(order, n);
      }
      var names := Names(wants);
      if names != [] {
        assert names[0] in names;
      }
    }

    /** The cards, seen from the state alone. */
    lemma ShownNamesAre()
      requires Wired() && Holds(Wanted())
      ensures forall n :: n in cards <==> n in ShownNames(view, Model())
      ensures SelectionIsShown(view, Model()) <==> HasSelection()
    {
      CardsAreShown(Wanted());
    }

    lemma IsShown(name: Option<string>)
      requires Wired() && Holds(Wanted())
      ensures name.Some? ==> (name.value in cards <==> name.value in ShownNames(view, Model()))
    {
      ShownNamesAre();
    }

    constructor (view: View, palette: Palette)
      ensures Valid() && this.view == view && Model() == Start(palette) && fresh(repr)
    {
      this.view, this.palette := view, palette;
      devices, query, selected, hovered := [], "", None, None;
      cards, rows, order, tagSerial, repr := map[], map[], [], 0, {};
    }

    // ----- painting -----

    method Paint(name: string)
      requires Wired() && name in cards && cards[name].device.name == name
      modifies {cards[name]}`colour
      ensures cards[name].colour == PaintOf(Model(), cards[name].device)
    {
      var card := cards[name];
      if selected == Some(name) {
        card.colour := Shade(palette, Chosen, card.device);
      } else if hovered == Some(name) {
        card.colour := Shade(palette, Pointed, card.device);
      } else {
        card.colour := Shade(palette, Plain, card.device);
      }
    }

    method RepaintAll()
      requires Wired() && Named()
      modifies repr`colour
      ensures Coloured()
    {
      var todo := cards.Keys;
      while todo != {}
        invariant todo <= cards.Keys
        invariant forall n :: n in cards && n !in todo ==> cards[n].colour == PaintOf(Model(), cards[n].device)
        decreases todo
      {
        var name :| name in todo;
        Paint(name);
        todo := todo - {name};
      }
    }

    method PaintIfShown(name: Option<string>)
      requires Wired() && Named()
      modifies repr`colour
      ensures
        forall n :: n in cards ==>
          cards[n].colour == if name == Some(n) then PaintOf(Model(), cards[n].device) else old(cards[n].colour)
    {
      if name.Some? && name.value in cards {
        Paint(name.value);
      }
    }

    // ----- filling -----

    method FillCard(card: Card, d: Device, collide: bool)
      modifies card`device, card`collide, card`heading, card`details
      ensures card.device == d && card.collide == collide
      ensures card.heading == Heading(view, d, collide) && card.details == Details(view, d, collide)
    {
      card.device := d;
      card.collide := collide;
      card.details := Details(view, d, collide);
      card.heading := Heading(view, d, collide);
    }

    method EditCard(wants: seq<Want>, i: nat)
      requires Wired() && DistinctKeys(wants) && i < |wants| && FilledUpTo(wants, i)
      requires wants[i].WantCard? && WantKey(wants[i]) in rows
      modifies repr`device, repr`collide, repr`heading, repr`details
      ensures FilledUpTo(wants, i + 1)
    {
      var w := wants[i];
      var card := rows[WantKey(w)].card;
      assert forall j :: 0 <= j < i ==> WantKey(wants[j]) != WantKey(w);
      assert forall n :: n in cards && n != w.device.name ==> cards[n] != card;
      FillCard(card, w.device, w.collide);
    }

    method NewCard(d: Device, collide: bool) returns (card: Card)
      modifies this`tagSerial
      ensures tagSerial == old(tagSerial) + 1 && fresh(card) && card.tag == tagSerial
      ensures card.device == d && card.collide == collide
      ensures card.heading == Heading(view, d, collide) && card.details == Details(view, d, collide)
    {
      tagSerial := tagSerial + 1;
      card := new Card(tagSerial, d, collide);
      FillCard(card, d, collide);
    }

    method BuildCard(d: Device, collide: bool)
      requires Wired() && CardKey(d.name) !in rows
      modifies this`cards, this`rows, this`tagSerial, this`repr
      ensures rows.Keys == old(rows.Keys) + {CardKey(d.name)} && Wired() && FilledAs(d, collide)
      ensures forall x: Device, c: bool :: old(FilledAs(x, c)) ==> FilledAs(x, c)
      ensures forall n :: n in old(cards) ==> n in cards && cards[n] == old(cards[n])
      ensures fresh(repr - old(repr)) && old(repr) <= repr
    {
      var card := NewCard(d, collide);
      AttachCard(card);
    }

    /** The card joins the rows and the cards under its device's name. */
    method AttachCard(card: Card)
      requires Wired() && CardKey(card.device.name) !in rows && card !in repr && card.tag == tagSerial
      requires forall n :: n in cards ==> cards[n].tag < tagSerial
      modifies this`cards, this`rows, this`repr
      ensures rows.Keys == old(rows.Keys) + {CardKey(card.device.name)} && Wired()
      ensures cards == old(cards)[card.device.name := card] && repr == old(repr) + {card}
    {
      var name := card.device.name;
      cards := cards[name := card];
      repr := repr + {card};
      rows := rows[CardKey(name) := CardRow(card)];
    }

    method DropRow(k: Key)
      requires Wired() && k in rows
      modifies this`cards, this`rows
      ensures Wired() && rows.Keys == old(rows.Keys) - {k}
      ensures forall n :: n in cards ==> n in old(cards) && cards[n] == old(cards[n])
    {
      rows := rows - {k};
      if k.CardKey? {
        cards := cards - {k.name};
      }
    }

    /** The first loop of `_reconcile`. */
    method DropUnwanted(wanted: set<Key>)
      requires Wired()
      modifies this`cards, this`rows
      ensures Wired() && rows.Keys == old(rows.Keys) * wanted
      ensures forall n :: n in cards ==> n in old(cards) && cards[n] == old(cards[n])
    {
      var todo := rows.Keys;
      while todo != {}
        invariant todo <= rows.Keys && Wired()
        invariant rows.Keys == todo + old(rows.Keys) * wanted
        invariant forall n :: n in cards ==> n in old(cards) && cards[n] == old(cards[n])
        decreases todo
      {
        var k :| k in todo;
        todo := todo - {k};
        if k !in wanted {
          DropRow(k);
        }
      }
    }

    method AddCard(wants: seq<Want>, i: nat)
      requires Wired() && DistinctKeys(wants) && i < |wants| && FilledUpTo(wants, i)
      requires wants[i].WantCard? && WantKey(wants[i]) !in rows
      modifies this`cards, this`rows, this`tagSerial, this`repr
      ensures Wired() && FilledUpTo(wants, i + 1) && rows.Keys == old(rows.Keys) + {WantKey(wants[i])}
      ensures forall n :: n in old(cards) ==> n in cards && cards[n] == old(cards[n])
      ensures fresh(repr - old(repr)) && old(repr) <= repr
    {
      BuildCard(wants[i].device, wants[i].collide);
    }

    /** One turn of the second loop: a row that is there is edited, a missing one built. */
    method FillRow(wants: seq<Want>, i: nat)
      requires Wired() && DistinctKeys(wants) && i < |wants| && FilledUpTo(wants, i)
      modifies this`cards, this`rows, this`tagSerial, this`repr, repr`device, repr`collide, repr`heading, repr`details
      ensures Wired() && FilledUpTo(wants, i + 1) && rows.Keys == old(rows.Keys) + {WantKey(wants[i])}
      ensures forall n :: n in old(cards) ==> n in cards && cards[n] == old(cards[n])
      ensures fresh(repr - old(repr)) && old(repr) <= repr
    {
      var w := wants[i];
      var k := WantKey(w);
      if k in rows {
        if w.WantCard? {
          EditCard(wants, i);
        }
      } else if w.WantCard? {
        AddCard(wants, i);
      } else {
        rows := rows[k := HeaderRow(w.group)];
      }
    }

    /** The second loop of `_reconcile`. */
    method FillRows(wants: seq<Want>)
      requires Wired() && DistinctKeys(wants)
      modifies this`cards, this`rows, this`tagSerial, this`repr, repr
      ensures Wired() && FilledUpTo(wants, |wants|) && rows.Keys == old(rows.Keys) + FirstKeys(wants, |wants|)
      ensures forall n :: n in old(cards) ==> n in cards && cards[n] == old(cards[n])
      ensures fresh(repr - old(repr)) && old(repr) <= repr
    {
      FirstKeysAre(wants);
      for i := 0 to |wants|
        invariant Wired() && FilledUpTo(wants, i)
        invariant rows.Keys == old(rows.Keys) + FirstKeys(wants, i)
        invariant forall n :: n in old(cards) ==> n in cards && cards[n] == old(cards[n])
        invariant fresh(repr - old(repr)) && old(repr) <= repr
      {
        FirstKeysStep(wants, i);
        FillRow(wants, i);
      }
    }

    /** The two loops of `_reconcile`. */
    method PutRows(wants: seq<Want>)
      requires Wired() && DistinctKeys(wants)
      modifies this`cards, this`rows, this`tagSerial, this`order, this`repr, repr
      ensures Wired() && Holds(wants)
      ensures forall n :: n in cards && n in old(cards) ==> cards[n] == old(cards[n])
      ensures fresh(repr - old(repr))
    {
      FirstKeysAre(wants);
      DropUnwanted(FirstKeys(wants, |wants|));
      FillRows(wants);
      order := Keys(wants);
    }

    lemma CardsAreNamed(wants: seq<Want>)
      requires Wired() && Holds(wants)
      ensures Named()
    {
      forall n | n in cards
        ensures cards[n].device.name == n
      {
        var i :| 0 <= i < |wants| && WantKey(wants[i]) == CardKey(n);
        assert FilledAs(wants[i].device, wants[i].collide);
      }
    }

    method SettleNames(names: seq<string>)
      requires forall n :: n in cards <==> n in names
      modifies this`selected, this`hovered
      ensures Model() == SettleOn(old(Model()), names)
    {
      if selected.None? || selected.value !in cards {
        selected := if names != [] then Some(names[0]) else None;
      }
      if hovered.None? || hovered.value !in cards {
        hovered := None;
      }
    }

    /** The end of `_reconcile`. */
    method Settle(wants: seq<Want>)
      requires Wired() && Holds(wants)
      modifies this`selected, this`hovered, repr`colour
      ensures Coloured() && HasSelection() && Model() == SettleOn(old(Model()), Names(wants))
    {
      CardsAreNamed(wants);
      SettleSelection(wants);
      RepaintAll();
    }

    method SettleSelection(wants: seq<Want>)
      requires Wired() && Holds(wants)
      modifies this`selected, this`hovered
      ensures HasSelection() && Model() == SettleOn(old(Model()), Names(wants))
    {
      CardsAreShown(wants);
      SettleNames(NamesIn(order));
    }

    /** The rows stay while the selection settles. */
    method SettleRows(wants: seq<Want>)
      requires Wired() && Holds(wants)
      modifies this`selected, this`hovered, repr`colour
      ensures Holds(wants) && Coloured() && HasSelection() && Model() == SettleOn(old(Model()), Names(wants))
    {
      Settle(wants);
    }

    /** `_reconcile`. */
    method Reconcile(wants: seq<Want>)
      requires Wired() && wants == Wanted() && DistinctKeys(wants) && DistinctNames(devices)
      modifies this, repr
      ensures Valid() && Model() == SettleOn(old(Model()), Names(wants))
      ensures forall n :: n in cards && n in old(cards) ==> cards[n] == old(cards[n])
      ensures fresh(repr - old(repr))
    {
      PutRows(wants);
      SettleRows(wants);
    }

    /** `_refill`. */
    method Refill()
      requires Wired() && DistinctNames(devices)
      modifies this, repr
      ensures Valid() && Model() == Settled(view, old(Model()))
      ensures forall n :: n in cards && n in old(cards) ==> cards[n] == old(cards[n])
      ensures fresh(repr - old(repr))
    {
      var filtered := FilterDevices(view, query, devices);
      var desired := BuildDesired(view, filtered);
      SettledIs(view, Model(), desired);
      DesiredKeysDiffer(view, query, devices);
      Reconcile(desired);
    }

    // ----- events -----

    /** `reload`: cards of devices that stay shown are kept and edited. */
    method DoReload(list: seq<Device>)
      requires Valid() && DistinctNames(list)
      modifies this, repr
      ensures Valid() && Model() == After(view, old(Model()), Reload(list))
      ensures forall n :: n in cards && n in old(cards) ==> cards[n] == old(cards[n])
      ensures fresh(repr - old(repr))
    {
      SortIsPermutation(view.order, list);
      PermutedNamesDiffer(list, Sorted(view, list));
      devices := Sorted(view, list);
      Refill();
    }

    method DoSetQuery(text: string)
      requires Valid()
      modifies this, repr
      ensures Valid() && Model() == After(view, old(Model()), SetQuery(text))
      ensures forall n :: n in cards && n in old(cards) ==> cards[n] == old(cards[n])
      ensures fresh(repr - old(repr))
    {
      query := Normal(view, text);
      Refill();
    }

    method Clear(next: Palette)
      modifies this`palette, this`cards, this`rows, this`order, this`repr
      ensures palette == next && Wired() && repr == {}
    {
      palette := next;
      cards, rows, order, repr := map[], map[], [], {};
    }

    /** Every row is dropped and built again. */
    method RebuildAll(next: Palette)
      requires DistinctNames(devices)
      modifies this
      ensures Valid() && Model() == Settled(view, old(Model()).(palette := next)) && fresh(repr)
    {
      Clear(next);
      Refill();
    }

    /** `retheme`: all cards are new, and the selection stays. */
    method DoRetheme(next: Palette)
      requires Valid()
      modifies this, repr
      ensures Valid() && Model() == After(view, old(Model()), Retheme(next))
      ensures fresh(repr)
    {
      ghost var m := Model().(palette := next);
      var was := selected;
      RebuildAll(next);
      IsShown(was);
      SettledShows(view, m);
      SelectAgain(was);
    }

    lemma ColouredIsNamed()
      requires Coloured()
      ensures Named()
    {}

    method PaintWith(next: Palette)
      requires Wired() && Named()
      modifies this`palette, repr`colour
      ensures Coloured() && palette == next
    {
      palette := next;
      RepaintAll();
    }

    method PaintOver(next: Palette, ghost wants: seq<Want>)
      requires Wired() && Holds(wants) && Named()
      modifies this`palette, repr`colour
      ensures Holds(wants) && Coloured() && palette == next
    {
      PaintWith(next);
    }

    /** `update_runtime`, as far as the colours go. */
    method DoUpdateRuntime(next: Palette)
      requires Valid()
      modifies this`palette, repr`colour
      ensures Valid() && Model() == After(view, old(Model()), UpdateRuntime(next))
    {
      UpdateColours(next);
    }

    method UpdateColours(next: Palette)
      requires Valid()
      modifies this`palette, repr`colour
      ensures Valid() && palette == next
    {
      ColouredIsNamed();
      ghost var wants := Wanted();
      PaintOver(next, wants);
      assert wants == Wanted();
    }

    /** `_set_selected`: only the cards that lose and gain the selection are painted. */
    method SetSelected(name: string)
      requires Wired() && Coloured() && name in cards
      modifies this`selected, repr`colour
      ensures Coloured() && selected == Some(name)
    {
      var previous := selected;
      selected := Some(name);
      PaintIfShown(previous);
      PaintIfShown(selected);
      forall n | n in cards
        ensures cards[n].colour == PaintOf(Model(), cards[n].device)
      {
        if previous != Some(n) && name != n {
          ColourStays(old(Model()), Model(), cards[n].device);
        }
      }
    }

    /** The rows stay while the selection moves. */
    method SelectOver(name: string, ghost wants: seq<Want>)
      requires Wired() && Holds(wants) && Coloured() && name in cards
      modifies this`selected, repr`colour
      ensures Wired() && Holds(wants) && Coloured() && HasSelection() && selected == Some(name)
    {
      SetSelected(name);
    }

    method SelectShown(name: string)
      requires Valid() && name in cards
      modifies this`selected, repr`colour
      ensures Valid() && selected == Some(name)
    {
      ghost var wants := Wanted();
      SelectOver(name, wants);
      assert wants == Wanted();
    }

    method SelectAgain(was: Option<string>)
      requires Valid()
      modifies this`selected, repr`colour
      ensures Valid()
      ensures Model() == old(Model()).(selected := if was.Some? && was.value in cards then was else old(selected))
    {
      if was.Some? && was.value in cards {
        SelectShown(was.value);
      }
    }

    /** `select_device`. */
    method DoSelect(name: string)
      requires Valid()
      modifies this`selected, repr`colour
      ensures Valid() && Model() == After(view, old(Model()), Select(name))
    {
      IsShown(Some(name));
      SelectAgain(Some(name));
    }

    /** `_set_hovered`: only the cards the pointer leaves and enters are painted. */
    method SetHovered(over: Option<string>)
      requires Wired() && Coloured()
      modifies this`hovered, repr`colour
      ensures Coloured() && hovered == over
    {
      var previous := hovered;
      if previous == over {
        return;
      }
      hovered := over;
      PaintIfShown(previous);
      PaintIfShown(over);
      forall n | n in cards
        ensures cards[n].colour == PaintOf(Model(), cards[n].device)
      {
        if previous != Some(n) && over != Some(n) {
          ColourStays(old(Model()), Model(), cards[n].device);
        }
      }
    }

    method HoverOver(over: Option<string>, ghost wants: seq<Want>)
      requires Wired() && Holds(wants) && Coloured()
      modifies this`hovered, repr`colour
      ensures Holds(wants) && Coloured() && hovered == over
    {
      SetHovered(over);
    }

    method HoverShown(over: Option<string>)
      requires Valid()
      modifies this`hovered, repr`colour
      ensures Valid() && hovered == over
    {
      ghost var wants := Wanted();
      HoverOver(over, wants);
      assert wants == Wanted();
    }

    method DoHover(over: Option<string>)
      requires Valid()
      modifies this`hovered, repr`colour
      ensures Valid() && Model() == After(view, old(Model()), Hover(over))
    {
      HoverShown(over);
    }

    /** `selection`: a shown device whenever there is one. */
    method Selection() returns (d: Option<Device>)
      requires Valid()
      ensures d.None? <==> ShownNames(view, Model()) == []
      ensures d.Some? ==> selected == Some(d.value.name) && d.value.name in ShownNames(view, Model())
    {
      ShownNamesAre();
      d := if selected.Some? && selected.value in cards then Some(cards[selected.value].device) else None;
    }

    /** A card row is first in its block after a header, and last before one or at the end. */
    predicate First(k: nat)
      requires k < |order|
      reads this`order
    {
      order[k].CardKey? && (k == 0 || order[k - 1].HeaderKey?)
    }

    predicate Last(k: nat)
      requires k < |order|
      reads this`order
    {
      order[k].CardKey? && (k + 1 == |order| || order[k + 1].HeaderKey?)
    }

    /** The row placement of `_layout`: each row starts where the one before ends. */
    method Layout(height: (Key, bool, bool) -> nat) returns (tops: seq<nat>)
      requires Wired() && forall k :: k in order ==> k in rows
      ensures |tops| == |order| + 1 && tops[0] == 0
      ensures forall i :: 0 <= i < |order| ==> EndsAt(tops, i, height)
    {
      tops := [0];
      for k := 0 to |order|
        invariant |tops| == k + 1 && tops[0] == 0
        invariant forall i :: 0 <= i < k ==> EndsAt(tops, i, height)
      {
        var isCard := rows[order[k]].CardRow?;
        var first := isCard && (k == 0 || !rows[order[k - 1]].CardRow?);
        var last := isCard && (k + 1 == |order| || !rows[order[k + 1]].CardRow?);
        assert first == First(k) && last == Last(k);
        ghost var before := tops;
        tops := tops + [tops[k] + height(order[k], first, last)];
        forall i | 0 <= i < k
          ensures EndsAt(tops, i, height)
        {
          assert EndsAt(before, i, height);
        }
      }
    }

    predicate EndsAt(tops: seq<nat>, i: nat, height: (Key, bool, bool) -> nat)
      requires i < |order|
      reads this`order
    {
      i + 1 < |tops| && tops[i + 1] == tops[i] + height(order[i], First(i), Last(i))
    }

    /** The list starts with a header, and a header is always followed by the first card
        of its block. */
    lemma BlocksAreHeaded(k: nat)
      requires Valid() && k < |order| && order[k].HeaderKey?
      ensures k + 1 < |order| && First(k + 1) && order[0].HeaderKey?
    {
      var shown := Filtered(view, query, devices);
      WantsShowDevices(view, shown, shown);
      var wants := Wanted();
      assert order[k] == WantKey(wants[k]) && order[0] == WantKey(wants[0]);
      assert wants[|wants| - 1].WantCard?;
      var next := k + 1;
      assert order[next] == WantKey(wants[next]);
    }
  }
}
