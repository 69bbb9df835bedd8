/**
 * The live chat (js/chat.js, repeated in js/main.js): who the visitor is, the
 * message bubbles the panel shows, the unread counter with its badge, sending
 * and the initial load of the history.
 */
module Chat {
  import opened Wrappers
  import opened Remote
  import opened Text

  // ---------------------------------------------------------------------------
  // Identity
  // ---------------------------------------------------------------------------

  /** What `localStorage` holds under `chatUserId` and `chatUserName` (`None` when absent). */
  datatype Stored = Stored(id: Option<string>, name: Option<string>)

  /** A stored value JavaScript treats as present: not null and not empty. */
  predicate Present(v: Option<string>) {
    v.Some? && v.value != ""
  }

  /** The visitor as `initializeUser` settles it, and what is stored afterwards. */
  datatype Identity = Identity(id: string, name: string, saved: Stored)

  /**
   * `initializeUser`: a present stored id and name are kept; a missing id
   * becomes `user_` followed by the random part; a missing name becomes the
   * prompt's answer, or `Guest` when it was cancelled or left empty. Whatever
   * was settled is what is stored.
   */
  function ResolveIdentity(stored: Stored, randomPart: string, answer: Option<string>): (r: Identity)
    ensures Present(stored.id) ==> r.id == stored.id.value
    ensures !Present(stored.id) ==> r.id == "user_" + randomPart
    ensures Present(stored.name) ==> r.name == stored.name.value
    ensures !Present(stored.name) && Present(answer) ==> r.name == answer.value
    ensures !Present(stored.name) && !Present(answer) ==> r.name == "Guest"
    ensures r.saved == Stored(Some(r.id), Some(r.name))
  {
    var id := if Present(stored.id) then stored.id.value else "user_" + randomPart;
    var name := if Present(stored.name) then stored.name.value
      else if Present(answer) then answer.value else "Guest";
    Identity(id, name, Stored(Some(id), Some(name)))
  }

  /**
   * Once settled, the identity survives a reload of the page: resolving again
   * from what was stored gives the same visitor, whatever the new random part
   * and prompt answer.
   */
  lemma IdentityIsStable(stored: Stored, randomPart: string, answer: Option<string>, randomPart': string, answer': Option<string>)
    ensures var first := ResolveIdentity(stored, randomPart, answer);
      ResolveIdentity(first.saved, randomPart', answer') == first
  {
    var first := ResolveIdentity(stored, randomPart, answer);
    assert ("user_" + randomPart)[0] == 'u';
    assert Present(first.saved.id);
    assert Present(first.saved.name);
  }

  // ---------------------------------------------------------------------------
  // Messages and bubbles
  // ---------------------------------------------------------------------------

  /** A row of the `chat_messages` table. */
  datatype ChatRow = ChatRow(
    id: int,
    userId: Option<string>,
    userName: string,
    message: string,
    isAdmin: bool,
    createdAt: string)

  /** What a bubble shows: which side, the avatar letter, the author, the escaped text, the admin avatar. */
  datatype Bubble = Bubble(sent: bool, initial: string, author: string, body: string, fromAdmin: bool)

  /** `name.charAt(0).toUpperCase()`. */
  function Initial(name: string): (r: string)
    ensures |r| <= 1 && (r == [] <==> name == [])
  {
    if name == [] then [] else [Upper(name[0])]
  }

  /** The bubble `displayMessage` appends for `msg` when the visitor's id is `me`. */
  function BubbleFor(msg: ChatRow, me: Option<string>): (b: Bubble)
    ensures b.sent <==> msg.userId == me
    ensures b.author == (if b.sent then "You" else msg.userName)
    ensures b.initial == Initial(msg.userName) && b.fromAdmin == msg.isAdmin
    ensures forall i :: 0 <= i < |b.body| ==> !IsMarkup(b.body[i])
    ensures UnescapeHtml(b.body) == msg.message
  {
    EscapeHtmlRoundTrip(msg.message);
    var sent := msg.userId == me;
    Bubble(sent, Initial(msg.userName), if sent then "You" else msg.userName, EscapeHtml(msg.message), msg.isAdmin)
  }

  function Bubbles(rows: seq<ChatRow>, me: Option<string>): (r: seq<Bubble>)
    ensures |r| == |rows|
    ensures forall i :: 0 <= i < |rows| ==> r[i] == BubbleFor(rows[i], me)
  {
    seq(|rows|, i requires 0 <= i < |rows| => BubbleFor(rows[i], me))
  }

  /** Displaying one more row appends its bubble. */
  lemma BubblesSnoc(rows: seq<ChatRow>, i: nat, me: Option<string>)
    requires i < |rows|
    ensures Bubbles(rows[..i + 1], me) == Bubbles(rows[..i], me) + [BubbleFor(rows[i], me)]
  {
    var a, b := Bubbles(rows[..i + 1], me), Bubbles(rows[..i], me) + [BubbleFor(rows[i], me)];
    assert |a| == |b|;
    forall k | 0 <= k < |a|
      ensures a[k] == b[k]
    {
      if k < i {
        assert rows[..i + 1][k] == rows[..i][k];
      }
    }
  }

  // ---------------------------------------------------------------------------
  // The history query
  // ---------------------------------------------------------------------------

  /** The history `loadMessages` asks for, at most this many messages. */
  const HistoryLimit := 100

  /**
   * The query as written: the table in ascending `created_at` order, cut to its
   * first 100 rows — the oldest messages.
   */
  function OldestMessages(table: seq<ChatRow>): (r: seq<ChatRow>)
    ensures |r| == if |table| < HistoryLimit then |table| else HistoryLimit
    ensures r == table[..|r|]
  {
    if |table| <= HistoryLimit then table else table[..HistoryLimit]
  }

  /**
   * The history a chat evidently wants: the latest 100 messages, still oldest
   * first so that bubbles are appended in time order.
   */
  function LatestMessages(table: seq<ChatRow>): (r: seq<ChatRow>)
    ensures |r| == if |table| < HistoryLimit then |table| else HistoryLimit
    ensures r == table[|table| - |r|..]
    ensures table != [] ==> r != [] && r[|r| - 1] == table[|table| - 1]
  {
    if |table| <= HistoryLimit then table else table[|table| - HistoryLimit..]
  }

  /** Every message of the table has its own id. */
  predicate DistinctIds(table: seq<ChatRow>) {
    forall i, j :: 0 <= i < j < |table| ==> table[i].id != table[j].id
  }

  /** The query as written loads a message exactly when fewer than 100 messages are older. */
  lemma OldestAre(table: seq<ChatRow>)
    requires DistinctIds(table)
    ensures forall j :: 0 <= j < |table| ==> (table[j] in OldestMessages(table) <==> j < HistoryLimit)
  {
    var r := OldestMessages(table);
    forall j | 0 <= j < |table|
      ensures table[j] in r <==> j < HistoryLimit
    {
      if j < HistoryLimit {
        assert r[j] == table[j];
      } else {
        forall k | 0 <= k < |r|
          ensures r[k] != table[j]
        {
          assert r[k] == table[k];
        }
      }
    }
  }

  /** The corrected query loads a message exactly when fewer than 100 messages are newer. */
  lemma LatestAre(table: seq<ChatRow>)
    requires DistinctIds(table)
    ensures forall j :: 0 <= j < |table| ==> (table[j] in LatestMessages(table) <==> j >= |table| - HistoryLimit)
  {
    var r := LatestMessages(table);
    var start := |table| - |r|;
    forall j | 0 <= j < |table|
      ensures table[j] in r <==> j >= |table| - HistoryLimit
    {
      if j >= start {
        assert r[j - start] == table[j];
      } else {
        forall k | 0 <= k < |r|
          ensures r[k] != table[j]
        {
          assert r[k] == table[start + k];
        }
      }
    }
  }

  /**
   * Once the table holds 101 messages, the query as written never loads the
   * newest one, while the corrected query does.
   */
  lemma OldestMissesNewest(table: seq<ChatRow>)
    requires |table| == HistoryLimit + 1 && DistinctIds(table)
    ensures table[HistoryLimit] !in OldestMessages(table)
    ensures table[HistoryLimit] in LatestMessages(table)
  {
    OldestAre(table);
    LatestAre(table);
  }

  // ---------------------------------------------------------------------------
  // Unread badge
  // ---------------------------------------------------------------------------

  /** The chat badge: hidden, or shown with a label. */
  datatype Badge = Hidden | Shown(text: string)

  /** `updateChatBadge`: hidden at zero, the count up to 99, `99+` above. */
  function BadgeFor(n: nat): (r: Badge)
    ensures r.Hidden? <==> n == 0
    ensures 1 <= n <= 99 ==> r.text == Decimal(n) && |r.text| <= 2 && ParseDecimal(r.text) == n
    ensures n > 99 ==> r.text == "99+"
  {
    if n > 0 then
      if n > 99 then Shown("99+")
      else
        DecimalRoundTrip(n);
        Shown(Decimal(n))
    else Hidden
  }

  /** What a send puts in the insert. */
  datatype ChatInsert = ChatInsert(userId: Option<string>, userName: Option<string>, message: string, isAdmin: bool)

  // ---------------------------------------------------------------------------
  // The chat session
  // ---------------------------------------------------------------------------

  /** The chat module's state: `currentUser`, the counters, the panel and its contents. */
  class ChatSession {
    var userId: Option<string>
    var userName: Option<string>
    var isAdmin: bool
    var unreadCount: nat
    var lastMessageId: int
    var panelOpen: bool
    var badge: Badge
    var shown: seq<Bubble>

    /** The badge always shows the unread count. */
    ghost predicate Valid()
      reads this
    {
      badge == BadgeFor(unreadCount)
    }

    constructor ()
      ensures Valid()
      ensures userId == None && userName == None && !isAdmin
      ensures unreadCount == 0 && lastMessageId == 0 && !panelOpen && shown == []
    {
      userId, userName, isAdmin := None, None, false;
      unreadCount, lastMessageId, panelOpen := 0, 0, false;
      badge := Hidden;
      shown := [];
    }

    /** `initializeUser`; returns what it left in `localStorage`. */
    method InitializeUser(stored: Stored, randomPart: string, answer: Option<string>) returns (saved: Stored)
      modifies this
      ensures var r := ResolveIdentity(stored, randomPart, answer);
        userId == Some(r.id) && userName == Some(r.name) && saved == r.saved
      ensures isAdmin == old(isAdmin) && unreadCount == old(unreadCount) && badge == old(badge)
      ensures lastMessageId == old(lastMessageId) && panelOpen == old(panelOpen) && shown == old(shown)
    {
      var r := ResolveIdentity(stored, randomPart, answer);
      userId, userName := Some(r.id), Some(r.name);
      saved := r.saved;
    }

    /** The admin password was accepted: messages sent from now on carry the admin flag. */
    method GrantAdmin()
      modifies this
      ensures isAdmin
      ensures userId == old(userId) && userName == old(userName) && unreadCount == old(unreadCount)
      ensures badge == old(badge) && lastMessageId == old(lastMessageId) && panelOpen == old(panelOpen)
      ensures shown == old(shown)
    {
      isAdmin := true;
    }

    /** The chat button: the panel toggles; opening it clears the unread count. */
    method ToggleChat()
      requires Valid()
      modifies this
      ensures Valid()
      ensures panelOpen == !old(panelOpen)
      ensures panelOpen ==> unreadCount == 0
      ensures !panelOpen ==> unreadCount == old(unreadCount)
      ensures userId == old(userId) && userName == old(userName) && isAdmin == old(isAdmin)
      ensures lastMessageId == old(lastMessageId) && shown == old(shown)
    {
      panelOpen := !panelOpen;
      if panelOpen {
        unreadCount := 0;
        badge := BadgeFor(unreadCount);
        MarkMessagesAsRead();
      }
    }

    /** The close button: the panel closes, the count stays. */
    method CloseChat()
      requires Valid()
      modifies this
      ensures Valid()
      ensures !panelOpen && unreadCount == old(unreadCount)
      ensures userId == old(userId) && userName == old(userName) && isAdmin == old(isAdmin)
      ensures lastMessageId == old(lastMessageId) && shown == old(shown)
    {
      panelOpen := false;
    }

    /** `markMessagesAsRead`: the count drops to zero and the badge hides. */
    method MarkMessagesAsRead()
      modifies this
      ensures Valid() && unreadCount == 0 && badge == Hidden
      ensures userId == old(userId) && userName == old(userName) && isAdmin == old(isAdmin)
      ensures lastMessageId == old(lastMessageId) && panelOpen == old(panelOpen) && shown == old(shown)
    {
      unreadCount := 0;
      badge := BadgeFor(unreadCount);
    }

    /**
     * `displayMessage`: the bubble is appended; the unread count goes up by one
     * exactly when the panel is closed, the message is someone else's, and it
     * arrived live.
     */
    method DisplayMessage(msg: ChatRow, isNew: bool)
      requires Valid()
      modifies this
      ensures Valid()
      ensures shown == old(shown) + [BubbleFor(msg, userId)]
      ensures unreadCount == old(unreadCount) + (if !panelOpen && msg.userId != userId && isNew then 1 else 0)
      ensures userId == old(userId) && userName == old(userName) && isAdmin == old(isAdmin)
      ensures lastMessageId == old(lastMessageId) && panelOpen == old(panelOpen)
    {
      var bubble := BubbleFor(msg, userId);
      shown := shown + [bubble];
      if !panelOpen && !bubble.sent && isNew {
        unreadCount := unreadCount + 1;
        badge := BadgeFor(unreadCount);
      }
    }

    /**
     * `loadMessages` over the table in `created_at` order: on an error or an
     * empty history nothing changes; otherwise the panel shows exactly the
     * history's bubbles and `lastMessageId` is its last id. The unread count
     * never changes, because loaded messages are not new.
     */
    method LoadMessages(table: Reply<seq<ChatRow>>)
      requires Valid()
      modifies this
      ensures Valid()
      ensures unreadCount == old(unreadCount)
      ensures table.Err? || table.data == [] ==>
        shown == old(shown) && lastMessageId == old(lastMessageId)
      ensures table.Ok? && table.data != [] ==>
        var history := LatestMessages(table.data);
        shown == Bubbles(history, userId) && lastMessageId == history[|history| - 1].id
      ensures userId == old(userId) && userName == old(userName) && isAdmin == old(isAdmin)
      ensures panelOpen == old(panelOpen)
    {
      if table.Err? || table.data == [] {
        return;
      }
      var history := LatestMessages(table.data);
      ShowHistory(history);
      lastMessageId := history[|history| - 1].id;
    }

    /** The panel emptied and refilled with the history's bubbles, none counted as unread. */
    method ShowHistory(history: seq<ChatRow>)
      requires Valid()
      modifies this
      ensures Valid()
      ensures shown == Bubbles(history, userId)
      ensures unreadCount == old(unreadCount) && panelOpen == old(panelOpen) && lastMessageId == old(lastMessageId)
      ensures userId == old(userId) && userName == old(userName) && isAdmin == old(isAdmin)
    {
      shown := [];
      for i := 0 to |history|
        invariant Valid()
        invariant shown == Bubbles(history[..i], userId)
        invariant unreadCount == old(unreadCount) && panelOpen == old(panelOpen) && lastMessageId == old(lastMessageId)
        invariant userId == old(userId) && userName == old(userName) && isAdmin == old(isAdmin)
      {
        DisplayMessage(history[i], false);
        BubblesSnoc(history, i, userId);
      }
      assert history[..|history|] == history;
    }

    /**
     * `sendMessage`: blank input sends nothing; otherwise the insert carries
     * the visitor's id, name and admin flag and the trimmed text, and the input
     * is cleared only when the insert succeeded.
     */
    method SendMessage(input: string, inserted: Ack) returns (request: Option<ChatInsert>, inputAfter: string)
      ensures request.None? <==> IsBlank(input)
      ensures request.Some? ==> request.value == ChatInsert(userId, userName, Trim(input), isAdmin)
      ensures request.Some? ==> request.value.message != [] && |request.value.message| <= |input|
      ensures inputAfter == (if request.Some? && inserted.Ok? then "" else input)
    {
      var message := Trim(input);
      if message == [] {
        return None, input;
      }
      request := Some(ChatInsert(userId, userName, message, isAdmin));
      inputAfter := if inserted.Ok? then "" else input;
    }
  }
}
