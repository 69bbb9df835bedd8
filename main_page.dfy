/**
 * The all-in-one page (js/main.js). Its load, add, admin list, status badge,
 * progress, report and chat code is the same as the split pages' and is
 * modelled there; what differs is that the approval, comment, delete and edit
 * handlers look at the backend's answer before changing the mirror.
 */
module MainPage {
  import opened Wrappers
  import opened Remote
  import opened Text
  import opened Mirror
  import opened DeliverablesCore
  import opened DeliverablesAdmin

  /**
   * `handleApprovalChange`: the card flips at once, but the mirror takes the
   * checkbox's state only when the update succeeded.
   */
  method HandleApprovalChange(items: Store, card: CardView, id: int, checked: bool, update: Ack)
    returns (shown: CardView)
    modifies items
    ensures shown == ToggleView(card, checked)
    ensures update.Err? ==> items.Contents() == old(items.Contents())
    ensures update.Ok? ==> items.Contents() == PatchAll(old(items.Contents()), id, SetApproved(checked))
  {
    shown := ToggleView(card, checked);
    if update.Ok? {
      items.PatchEach(id, SetApproved(checked));
    }
  }

  /** `handleCommentChange`: the trimmed comment is stored locally only when the update succeeded. */
  method HandleCommentChange(items: Store, id: int, value: string, update: Ack)
    modifies items
    ensures update.Err? ==> items.Contents() == old(items.Contents())
    ensures update.Ok? ==> items.Contents() == PatchAll(old(items.Contents()), id, SetComment(Trim(value)))
  {
    var comment := Trim(value);
    if update.Ok? {
      items.PatchEach(id, SetComment(comment));
    }
  }

  /**
   * `deleteItem`: nothing happens without confirmation or when the delete
   * failed; otherwise the bucket is filtered.
   */
  method DeleteItem(items: Store, id: int, c: Category, confirmed: bool, deleted: Ack)
    modifies items
    ensures !confirmed || deleted.Err? ==> items.Contents() == old(items.Contents())
    ensures confirmed && deleted.Ok? ==>
      items.Contents() == old(items.Contents()).With(c, WithoutId(old(items.Contents()).Get(c), id))
  {
    if confirmed {
      if deleted.Ok? {
        items.RemoveId(c, id);
      }
    }
  }

  /**
   * `editItem`: an id missing from the bucket changes nothing; otherwise the
   * form is pre-filled, and the bucket is filtered only when the delete
   * succeeded.
   */
  method EditItem(items: Store, id: int, c: Category, deleted: Ack) returns (prefill: Option<Prefill>)
    modifies items
    ensures FindItem(old(items.Contents()).Get(c), id).None? ==>
      prefill.None? && items.Contents() == old(items.Contents())
    ensures FindItem(old(items.Contents()).Get(c), id).Some? ==>
      prefill == Some(PrefillOf(c, FindItem(old(items.Contents()).Get(c), id).value))
    ensures FindItem(old(items.Contents()).Get(c), id).Some? && deleted.Err? ==>
      items.Contents() == old(items.Contents())
    ensures FindItem(old(items.Contents()).Get(c), id).Some? && deleted.Ok? ==>
      items.Contents() == old(items.Contents()).With(c, WithoutId(old(items.Contents()).Get(c), id))
  {
    var found := items.Find(c, id);
    if found.None? {
      return None;
    }
    prefill := Some(PrefillOf(c, found.value));
    if deleted.Ok? {
      items.RemoveId(c, id);
    }
  }
}
