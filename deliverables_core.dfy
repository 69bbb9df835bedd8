/**
 * The client review page (js/deliverables-core.js): loading the mirror, the
 * status badge of a card, the approval checkbox and comment box handlers, the
 * progress line and the realtime reload.
 */
module DeliverablesCore {
  import opened Wrappers
  import opened Remote
  import opened Text
  import opened Mirror

  // ---------------------------------------------------------------------------
  // Status badge and status text of a card
  // ---------------------------------------------------------------------------

  /** The statuses the badge map knows. */
  predicate KnownStatus(status: string) {
    status == "pending" || status == "uploaded" || status == "rendering" || status == "approved"
  }

  /** The badge class: the map's entry for a known status, `badge-pending` for any other. */
  function StatusBadge(status: string): (cls: string)
    ensures cls == "badge-pending" || cls == "badge-uploaded" || cls == "badge-rendering" || cls == "badge-approved"
    ensures cls == "badge-" + status <==> KnownStatus(status)
    ensures !KnownStatus(status) ==> cls == "badge-pending"
  {
    if status == "pending" then "badge-pending"
    else if status == "uploaded" then "badge-uploaded"
    else if status == "rendering" then "badge-rendering"
    else if status == "approved" then "badge-approved"
    else
      assert ("badge-" + status)[6..] == status;
      "badge-pending"
  }

  /** The badge's text: the status with its first character upper-cased. */
  function StatusText(status: string): string {
    Capitalize(status)
  }

  /** Only `pending` and `Pending` read as "Pending" on a freshly rendered card. */
  lemma StatusTextPending(status: string)
    ensures StatusText(status) == "Pending" <==> status == "pending" || status == "Pending"
  {
    if StatusText(status) == "Pending" {
      assert |status| == 7;
      assert status[1..] == "Pending"[1..];
      assert status == [status[0]] + status[1..];
    }
  }

  /** Only `approved` and `Approved` read as "Approved" on a freshly rendered card. */
  lemma StatusTextApproved(status: string)
    ensures StatusText(status) == "Approved" <==> status == "approved" || status == "Approved"
  {
    if StatusText(status) == "Approved" {
      assert |status| == 8;
      assert status[1..] == "Approved"[1..];
      assert status == [status[0]] + status[1..];
    }
  }

  // ---------------------------------------------------------------------------
  // The card's approval look
  // ---------------------------------------------------------------------------

  /**
   * What the page shows of one card's approval state: whether the card carries
   * the `approved` class, the badge's class list and the badge's text.
   */
  datatype CardView = CardView(cardApproved: bool, badge: set<string>, caption: string)

  /** A card as `createItemHTML` renders it. */
  function InitialView(it: Item): CardView {
    CardView(false, {"badge", StatusBadge(it.status)}, StatusText(it.status))
  }

  /** The checked branch: `approved` added, status classes swapped for `badge-approved`. */
  function ApprovedView(v: CardView): CardView {
    CardView(true, v.badge - {"badge-pending", "badge-uploaded", "badge-rendering"} + {"badge-approved"}, "Approved")
  }

  /** The unchecked branch: `approved` removed, `badge-approved` swapped for `badge-pending`. */
  function PendingView(v: CardView): CardView {
    CardView(false, v.badge - {"badge-approved"} + {"badge-pending"}, "Pending")
  }

  /** What the approval handler does to the card before it talks to the backend. */
  function ToggleView(v: CardView, checked: bool): (r: CardView)
    ensures r.cardApproved == checked
    ensures r.caption == (if checked then "Approved" else "Pending")
    ensures "badge" in v.badge ==> "badge" in r.badge
    ensures checked ==> "badge-approved" in r.badge && "badge-pending" !in r.badge
    ensures !checked ==> "badge-pending" in r.badge && "badge-approved" !in r.badge
  {
    if checked then ApprovedView(v) else PendingView(v)
  }

  /** A card after `renderItems` and `updateApprovalStates`. */
  function RenderedView(it: Item): CardView {
    if it.isApproved then ApprovedView(InitialView(it)) else InitialView(it)
  }

  /** A rendered card reads "Approved" exactly when the item is approved or its status says so. */
  lemma RenderedLabel(it: Item)
    ensures RenderedView(it).caption == "Approved" <==>
      it.isApproved || it.status == "approved" || it.status == "Approved"
  {
    StatusTextApproved(it.status);
  }

  /** A rendered card's badge carries `badge` and exactly one status class. */
  lemma RenderedBadge(it: Item)
    ensures exists cls :: RenderedView(it).badge == {"badge", cls} && cls[..6] == "badge-"
  {
    var cls := if it.isApproved then "badge-approved" else StatusBadge(it.status);
    assert RenderedView(it).badge == {"badge", cls};
  }

  /**
   * The toggled card and a fresh render of the patched item agree when the box
   * is checked; when it is unchecked they agree exactly for pending items, since
   * a fresh render of any other status shows that status again.
   */
  lemma ToggleAgreesWithRender(it: Item, checked: bool)
    ensures checked ==> ToggleView(RenderedView(it), true) == RenderedView(Apply(SetApproved(true), it))
    ensures !checked ==>
      (ToggleView(RenderedView(it), false) == RenderedView(Apply(SetApproved(false), it))
       <==> it.status == "pending" || it.status == "Pending")
  {
    StatusTextPending(it.status);
    var v := RenderedView(it);
    if !checked && (it.status == "pending" || it.status == "Pending") {
      assert ToggleView(v, false).badge == {"badge", "badge-pending"};
    }
  }

  // ---------------------------------------------------------------------------
  // Progress line
  // ---------------------------------------------------------------------------

  /** The approval checkboxes on the page, in grid order: one per item, checked when approved. */
  function CheckBoxes(b: Buckets): (boxes: seq<bool>)
    ensures |boxes| == b.Size()
  {
    Flags(b.photos) + Flags(b.shortVideos) + Flags(b.longVideos)
  }

  function Flags(s: seq<Item>): (r: seq<bool>)
    ensures |r| == |s|
    ensures forall i :: 0 <= i < |s| ==> r[i] == s[i].isApproved
  {
    seq(|s|, i requires 0 <= i < |s| => s[i].isApproved)
  }

  /** `querySelectorAll(".approve-checkbox:checked").length`. */
  function CountChecked(boxes: seq<bool>): (n: nat)
    ensures n <= |boxes|
    ensures n == 0 <==> forall i :: 0 <= i < |boxes| ==> !boxes[i]
    ensures n == |boxes| <==> forall i :: 0 <= i < |boxes| ==> boxes[i]
  {
    if boxes == [] then 0
    else CountChecked(boxes[1..]) + (if boxes[0] then 1 else 0)
  }

  /** The progress numerator is the number of checked boxes: the multiplicity of `true`. */
  lemma {:induction false} CountCheckedIsMultiplicity(boxes: seq<bool>)
    ensures CountChecked(boxes) == multiset(boxes)[true]
  {
    if boxes != [] {
      assert boxes == [boxes[0]] + boxes[1..];
      assert multiset(boxes) == multiset([boxes[0]]) + multiset(boxes[1..]);
      CountCheckedIsMultiplicity(boxes[1..]);
    }
  }

  /** `${approved}/${total} Approved`. */
  function ProgressText(approved: nat, total: nat): string {
    Decimal(approved) + "/" + Decimal(total) + " Approved"
  }

  /** The progress line of a page showing `boxes`. */
  function Progress(boxes: seq<bool>): string {
    ProgressText(CountChecked(boxes), |boxes|)
  }

  /** In a numeral followed by `/`, the first `/` sits right after the numeral. */
  lemma FirstSlash(x: string, y: string)
    requires forall i :: 0 <= i < |x| ==> IsDigit(x[i])
    ensures (x + "/" + y)[|x|] == '/'
    ensures forall i :: 0 <= i < |x| ==> (x + "/" + y)[i] != '/'
  {
    assert forall i :: 0 <= i < |x| ==> (x + "/" + y)[i] == x[i];
  }

  /** A numeral, a slash and a tail split only one way. */
  lemma DigitsThenSlash(x: string, y: string, u: string, v: string)
    requires forall i :: 0 <= i < |x| ==> IsDigit(x[i])
    requires forall i :: 0 <= i < |u| ==> IsDigit(u[i])
    requires x + "/" + y == u + "/" + v
    ensures x == u && y == v
  {
    FirstSlash(x, y);
    FirstSlash(u, v);
    assert |x| == |u|;
    assert x == (x + "/" + y)[..|x|];
    assert u == (u + "/" + v)[..|u|];
    assert y == (x + "/" + y)[|x| + 1..];
    assert v == (u + "/" + v)[|u| + 1..];
  }

  /** Two texts ending in the same suffix are equal when the whole texts are. */
  lemma DropSuffix(x: string, y: string, suffix: string)
    requires x + suffix == y + suffix
    ensures x == y
  {
    assert |x| == |y|;
    assert x == (x + suffix)[..|x|];
    assert y == (y + suffix)[..|y|];
  }

  /** The progress line determines both counts: different progress reads differently. */
  lemma ProgressTextInjective(a: nat, t: nat, a': nat, t': nat)
    requires ProgressText(a, t) == ProgressText(a', t')
    ensures a == a' && t == t'
  {
    var x, x' := Decimal(a), Decimal(a');
    var tail, tail' := Decimal(t) + " Approved", Decimal(t') + " Approved";
    AppendAssoc(x + "/", Decimal(t), " Approved");
    AppendAssoc(x' + "/", Decimal(t'), " Approved");
    DigitsThenSlash(x, tail, x', tail');
    DropSuffix(Decimal(t), Decimal(t'), " Approved");
    DecimalInjective(a, a');
    DecimalInjective(t, t');
  }

  // ---------------------------------------------------------------------------
  // Handlers
  // ---------------------------------------------------------------------------

  /**
   * `loadData`: a fetch error is thrown before the reset, so it leaves the
   * buckets as they were; otherwise the buckets are the partition of the rows.
   */
  method LoadData(items: Store, fetched: Reply<seq<Row>>)
    modifies items
    ensures fetched.Err? ==> items.Contents() == old(items.Contents())
    ensures fetched.Ok? ==> items.Contents() == Partition(fetched.data)
  {
    match fetched
    case Err =>
    case Ok(rows) => items.LoadRows(rows);
  }

  /**
   * `handleApprovalChange`: the card flips at once; the backend update's
   * outcome is not looked at, and the first item with the id in each bucket
   * gets the checkbox's state.
   */
  method HandleApprovalChange(items: Store, card: CardView, id: int, checked: bool, update: Ack)
    returns (shown: CardView)
    modifies items
    ensures shown == ToggleView(card, checked)
    ensures items.Contents() == PatchAll(old(items.Contents()), id, SetApproved(checked))
  {
    shown := ToggleView(card, checked);
    items.PatchEach(id, SetApproved(checked));
  }

  /** `handleCommentChange`: the trimmed text is stored locally whatever the update returned. */
  method HandleCommentChange(items: Store, id: int, value: string, update: Ack)
    modifies items
    ensures items.Contents() == PatchAll(old(items.Contents()), id, SetComment(Trim(value)))
  {
    var comment := Trim(value);
    items.PatchEach(id, SetComment(comment));
  }

  /** The realtime callback: any change to the table reloads the whole mirror. */
  method OnDeliverablesChange(items: Store, fetched: Reply<seq<Row>>)
    modifies items
    ensures fetched.Err? ==> items.Contents() == old(items.Contents())
    ensures fetched.Ok? ==> items.Contents() == Partition(fetched.data)
  {
    LoadData(items, fetched);
  }
}
