/** What the cards on the canvas show (launcher/device_card_list.py). */
module CanvasLaws {
  import opened Options
  import opened CardRows
  import opened DeviceCardList

  /** What each card of the canvas shows: a matching device, with the texts of its mark,
      in the colour of the selection, else of the hover, else its own. */
  lemma RebuiltSays(view: View, m: Model, i: nat)
    requires i < |Rebuilt(view, m)| && Rebuilt(view, m)[i].CardLook?
    ensures
      var look := Rebuilt(view, m)[i];
      var d := look.device;
      && d in m.devices && d.isInstalled && (m.query == "" || exists a, b :: a + m.query + b == view.haystack(d))
      && (look.collide <==> TitledTwice(view, Filtered(view, m.query, m.devices), view.group(d), view.osTitle(d)))
      && look.heading == view.heading(d, look.collide) && look.details == view.details(d, !look.collide)
      && look.colour == if m.selected == Some(d.name) then m.palette.selected(d)
                        else if m.hovered == Some(d.name) then m.palette.hover(d)
                        else m.palette.base(d)
  {
    var wants := Desired(view, m.query, m.devices);
    assert wants[i] in wants;
    DesiredCard(view, m.query, m.devices, wants[i]);
  }
}
