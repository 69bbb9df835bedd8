/**
 * The single-file portal page (js/deliverables.js). Its load, comment, add,
 * admin list, delete, edit, submit and report code is the same as the review
 * page's and is modelled there; what differs is how the approval handler
 * swaps the badge class.
 */
module DeliverablesPage {
  import opened Remote
  import opened Mirror
  import opened DeliverablesCore

  /**
   * The approval handler's card update with `classList.replace`: the status
   * class is swapped only when the expected old class is there; the text
   * always changes.
   */
  function ReplaceView(v: CardView, checked: bool): (r: CardView)
    ensures r.cardApproved == checked
    ensures r.caption == (if checked then "Approved" else "Pending")
    ensures checked && "badge-pending" !in v.badge ==> r.badge == v.badge
    ensures !checked && "badge-approved" !in v.badge ==> r.badge == v.badge
    ensures checked && "badge-pending" in v.badge ==> "badge-approved" in r.badge && "badge-pending" !in r.badge
    ensures !checked && "badge-approved" in v.badge ==> "badge-pending" in r.badge && "badge-approved" !in r.badge
  {
    if checked then
      CardView(true, if "badge-pending" in v.badge then v.badge - {"badge-pending"} + {"badge-approved"} else v.badge, "Approved")
    else
      CardView(false, if "badge-approved" in v.badge then v.badge - {"badge-approved"} + {"badge-pending"} else v.badge, "Pending")
  }

  /**
   * Checking a freshly rendered card gives the same look as on the review page
   * exactly when its status is neither `uploaded` nor `rendering`; for those two
   * the badge keeps its status class while its text says "Approved".
   */
  lemma ReplaceAgreesWithToggle(it: Item)
    ensures ReplaceView(InitialView(it), true) == ToggleView(InitialView(it), true)
      <==> it.status != "uploaded" && it.status != "rendering"
  {
    var cls := StatusBadge(it.status);
    var v := InitialView(it);
    assert ToggleView(v, true).badge == {"badge", "badge-approved"};
    if it.status == "uploaded" || it.status == "rendering" {
      assert cls in ReplaceView(v, true).badge;
      assert cls !in ToggleView(v, true).badge;
    } else {
      assert cls == "badge-pending" || cls == "badge-approved";
    }
  }

  /**
   * `handleApprovalChange`: the card is updated with `replace`; the update's
   * outcome is not looked at, and the first item with the id in each bucket
   * gets the checkbox's state.
   */
  method HandleApprovalChange(items: Store, card: CardView, id: int, checked: bool, update: Ack)
    returns (shown: CardView)
    modifies items
    ensures shown == ReplaceView(card, checked)
    ensures items.Contents() == PatchAll(old(items.Contents()), id, SetApproved(checked))
  {
    shown := ReplaceView(card, checked);
    items.PatchEach(id, SetApproved(checked));
  }
}
