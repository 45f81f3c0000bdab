/**
 * The conversation list: the roster built from the whole message tree, the
 * index merge, the display-name cache, the All/Unread filter and the
 * symmetric conversation delete.
 */
module ConversationListScreen {
  import opened Wrappers
  import opened Sequences
  import opened Records
  import opened Database
  import MessageScreen

  /** A message child as the roster listener reads it: every field may be absent or of another type. */
  datatype RawMessage = RawMessage(senderId: Option<string>, receiverId: Option<string>, timestamp: Option<int>, read: Option<bool>)

  /** One roster line. */
  datatype ConversationItem = ConversationItem(uid: string, lastTimestamp: int, unreadCount: int)

  /** How a stored record reads to the roster listener. */
  function RawOf(m: Message): RawMessage {
    RawMessage(Some(m.senderId), Some(m.receiverId), Some(m.timestamp), m.read)
  }

  predicate Involves(m: RawMessage, self: string) {
    m.senderId == Some(self) || m.receiverId == Some(self)
  }

  /** A missing timestamp counts as 0. */
  function TimestampOf(m: RawMessage): int {
    m.timestamp.GetOr(0)
  }

  /** Unread and addressed to `self`; a missing read flag counts as read. */
  predicate CountsUnread(m: RawMessage, self: string) {
    !m.read.GetOr(true) && m.receiverId == Some(self)
  }

  /** The other party of a message that involves `self`. */
  function OtherOf(m: RawMessage, self: string): Option<string> {
    if m.senderId == Some(self) then m.receiverId else m.senderId
  }

  /** A message that names a peer for the roster line. */
  predicate NamesPeer(m: RawMessage, self: string) {
    Involves(m, self) && OtherOf(m, self).Some?
  }

  /** The latest timestamp among the messages involving `self`, and 0 when there is none later than 0. */
  function LastTimestamp(conv: seq<RawMessage>, self: string): (r: int)
    ensures r >= 0
    ensures forall i :: 0 <= i < |conv| && Involves(conv[i], self) ==> TimestampOf(conv[i]) <= r
    ensures r == 0 || exists i :: 0 <= i < |conv| && Involves(conv[i], self) && TimestampOf(conv[i]) == r
  {
    if conv == [] then 0
    else
      var init := conv[..|conv| - 1];
      var last := conv[|conv| - 1];
      assert forall j :: 0 <= j < |init| ==> init[j] == conv[j];
      var before := LastTimestamp(init, self);
      if Involves(last, self) && TimestampOf(last) > before then TimestampOf(last) else before
  }

  /** The number of unread messages addressed to `self`. */
  function UnreadCount(conv: seq<RawMessage>, self: string): (r: nat)
    ensures r <= |conv|
    ensures r == 0 <==> forall i :: 0 <= i < |conv| ==> !CountsUnread(conv[i], self)
  {
    if conv == [] then 0
    else
      var init := conv[..|conv| - 1];
      assert forall j :: 0 <= j < |init| ==> init[j] == conv[j];
      UnreadCount(init, self) + if CountsUnread(conv[|conv| - 1], self) then 1 else 0
  }

  /** Counting unread messages adds up over the parts of a thread. */
  lemma {:induction false} UnreadCountAppend(a: seq<RawMessage>, b: seq<RawMessage>, self: string)
    ensures UnreadCount(a + b, self) == UnreadCount(a, self) + UnreadCount(b, self)
    decreases |b|
  {
    if b == [] {
      assert a + b == a;
    } else {
      var b' := b[..|b| - 1];
      assert (a + b)[..|a + b| - 1] == a + b';
      UnreadCountAppend(a, b', self);
    }
  }

  /** The peer named by the last message that involves `self` and names another party. */
  function Peer(conv: seq<RawMessage>, self: string): (r: Option<string>)
    ensures r.Some? <==> exists i :: 0 <= i < |conv| && NamesPeer(conv[i], self)
    ensures r.Some? ==> exists i :: 0 <= i < |conv| && NamesPeer(conv[i], self) && OtherOf(conv[i], self) == r
                          && forall j :: i < j < |conv| ==> !NamesPeer(conv[j], self)
  {
    if conv == [] then None
    else
      var init := conv[..|conv| - 1];
      var last := conv[|conv| - 1];
      assert forall j :: 0 <= j < |init| ==> init[j] == conv[j];
      if NamesPeer(last, self) then
        assert NamesPeer(conv[|conv| - 1], self);
        OtherOf(last, self)
      else
        assert !NamesPeer(conv[|conv| - 1], self);
        Peer(init, self)
  }

  /** The roster line of one thread, none when no message names a peer. */
  function Summary(conv: seq<RawMessage>, self: string): (r: Option<ConversationItem>)
    ensures r.Some? <==> Peer(conv, self).Some?
    ensures r.Some? ==> r.value == ConversationItem(Peer(conv, self).value, LastTimestamp(conv, self), UnreadCount(conv, self))
  {
    match Peer(conv, self)
    case Some(p) => Some(ConversationItem(p, LastTimestamp(conv, self), UnreadCount(conv, self)))
    case None => None
  }

  /** The roster lines of a snapshot of all threads, in snapshot order. */
  function Items(snapshot: seq<seq<RawMessage>>, self: string): (r: seq<ConversationItem>)
    ensures |r| <= |snapshot|
    ensures forall it :: it in r <==> exists j :: 0 <= j < |snapshot| && Summary(snapshot[j], self) == Some(it)
  {
    if snapshot == [] then []
    else
      var init := snapshot[..|snapshot| - 1];
      var last := snapshot[|snapshot| - 1];
      assert forall j :: 0 <= j < |init| ==> init[j] == snapshot[j];
      Items(init, self) + match Summary(last, self) { case Some(it) => [it] case None => [] }
  }

  /** The sort key of the roster: newest first. */
  function NewestFirstKey(it: ConversationItem): int {
    -it.lastTimestamp
  }

  /**
   * Splitting the snapshot splits its lines: one line per thread that names a
   * peer, in snapshot order.
   */
  lemma {:induction false} ItemsAppend(s: seq<seq<RawMessage>>, t: seq<seq<RawMessage>>, self: string)
    ensures Items(s + t, self) == Items(s, self) + Items(t, self)
    decreases |t|
  {
    if t == [] {
      assert s + t == s;
    } else {
      var t' := t[..|t| - 1];
      assert (s + t)[..|s + t| - 1] == s + t';
      assert (s + t)[|s + t| - 1] == t[|t| - 1];
      ItemsAppend(s, t', self);
    }
  }

  /**
   * The roster a snapshot of all threads produces: exactly the threads' lines
   * (as a multiset), newest first.
   */
  function Roster(snapshot: seq<seq<RawMessage>>, self: string): (r: seq<ConversationItem>)
    ensures multiset(r) == multiset(Items(snapshot, self))
    ensures forall i, j :: 0 <= i < j < |r| ==> r[i].lastTimestamp >= r[j].lastTimestamp
  {
    SortBySorted(Items(snapshot, self), NewestFirstKey);
    SortBy(Items(snapshot, self), NewestFirstKey)
  }

  /** The roster keeps snapshot order among lines with the same timestamp. */
  lemma RosterStable(snapshot: seq<seq<RawMessage>>, self: string)
    ensures forall k :: WithKey(Roster(snapshot, self), NewestFirstKey, k) == WithKey(Items(snapshot, self), NewestFirstKey, k)
  {
    forall k ensures WithKey(Roster(snapshot, self), NewestFirstKey, k) == WithKey(Items(snapshot, self), NewestFirstKey, k) {
      SortByStable(Items(snapshot, self), NewestFirstKey, k);
    }
  }

  /** The inner loop of the messages listener: one pass over a thread's messages. */
  method ScanThread(conv: seq<RawMessage>, self: string) returns (lastTimestamp: int, otherUser: Option<string>, unreadCount: int)
    ensures lastTimestamp == LastTimestamp(conv, self)
    ensures otherUser == Peer(conv, self)
    ensures unreadCount == UnreadCount(conv, self)
  {
    lastTimestamp, otherUser, unreadCount := 0, None, 0;
    var j := 0;
    while j < |conv|
      invariant 0 <= j <= |conv|
      invariant lastTimestamp == LastTimestamp(conv[..j], self)
      invariant otherUser == Peer(conv[..j], self)
      invariant unreadCount == UnreadCount(conv[..j], self)
    {
      var m := conv[j];
      assert conv[..j + 1][..j] == conv[..j];
      if Involves(m, self) {
        if TimestampOf(m) > lastTimestamp {
          lastTimestamp := TimestampOf(m);
        }
        var other := OtherOf(m, self);
        if other.Some? {
          otherUser := other;
        }
        if CountsUnread(m, self) {
          unreadCount := unreadCount + 1;
        }
      }
      j := j + 1;
    }
    assert conv[..|conv|] == conv;
  }

  /** The outer loop of the messages listener: one line per thread that names a peer, then newest first. */
  method BuildRoster(snapshot: seq<seq<RawMessage>>, self: string) returns (roster: seq<ConversationItem>)
    ensures roster == Roster(snapshot, self)
  {
    var convList: seq<ConversationItem> := [];
    var i := 0;
    while i < |snapshot|
      invariant 0 <= i <= |snapshot|
      invariant convList == Items(snapshot[..i], self)
    {
      var lastTimestamp, otherUser, unreadCount := ScanThread(snapshot[i], self);
      assert snapshot[..i + 1][..i] == snapshot[..i];
      if otherUser.Some? {
        convList := convList + [ConversationItem(otherUser.value, lastTimestamp, unreadCount)];
      }
      i := i + 1;
    }
    assert snapshot[..|snapshot|] == snapshot;
    roster := SortBy(convList, NewestFirstKey);
  }

  /**
   * A message just sent to `self` by `peer` makes the thread's line name `peer`,
   * raises its unread count by one and brings its time up to the send time.
   */
  lemma SentMessageCounted(conv: seq<RawMessage>, self: string, peer: string, draft: string,
                           image: Option<string>, seconds: int, now: int)
    requires peer != self
    ensures var conv' := conv + [RawOf(MessageScreen.NewRecord(peer, self, draft, image, seconds, now))];
      && Peer(conv', self) == Some(peer)
      && UnreadCount(conv', self) == UnreadCount(conv, self) + 1
      && LastTimestamp(conv', self) >= now
  {
    var raw := RawOf(MessageScreen.NewRecord(peer, self, draft, image, seconds, now));
    var conv' := conv + [raw];
    assert conv'[..|conv'| - 1] == conv;
    assert conv'[|conv'| - 1] == raw;
  }

  // ---- index merge ----

  /** Some line of `items` is for `uid`. */
  predicate HasUid(items: seq<ConversationItem>, uid: string) {
    exists i :: 0 <= i < |items| && items[i].uid == uid
  }

  /** The index listener's loop: every indexed peer without a line gets `(uid, 0, 0)` at the end. */
  function Merged(items: seq<ConversationItem>, uids: seq<string>): (r: seq<ConversationItem>)
    ensures |items| <= |r| <= |items| + |uids|
    ensures r[..|items|] == items
    decreases |uids|
  {
    if uids == [] then items
    else
      var before := Merged(items, uids[..|uids| - 1]);
      var uid := uids[|uids| - 1];
      if HasUid(before, uid) then before
      else
        assert (before + [ConversationItem(uid, 0, 0)])[..|items|] == before[..|items|];
        before + [ConversationItem(uid, 0, 0)]
  }

  /**
   * The merge keeps every existing line as it was, adds one `(uid, 0, 0)` line for
   * each indexed peer that had none and nothing else, and never adds a peer twice.
   */
  lemma {:induction false} MergedProperties(items: seq<ConversationItem>, uids: seq<string>)
    ensures var r := Merged(items, uids);
      && |items| <= |r| && r[..|items|] == items
      && (forall i :: |items| <= i < |r| ==> r[i].lastTimestamp == 0 && r[i].unreadCount == 0
                                              && r[i].uid in uids && !HasUid(items, r[i].uid))
      && (forall i, j :: |items| <= i < j < |r| ==> r[i].uid != r[j].uid)
      && (forall u :: u in uids ==> HasUid(r, u))
    decreases |uids|
  {
    if uids != [] {
      var init := uids[..|uids| - 1];
      var uid := uids[|uids| - 1];
      MergedProperties(items, init);
      var before := Merged(items, init);
      assert forall u :: u in init ==> u in uids;
      if !HasUid(before, uid) {
        var r := before + [ConversationItem(uid, 0, 0)];
        assert r[..|items|] == before[..|items|];
        forall u | u in uids ensures HasUid(r, u) {
          if u != uid {
            assert u in init;
            var k :| 0 <= k < |before| && before[k].uid == u;
            assert r[k].uid == u;
          } else {
            assert r[|r| - 1].uid == u;
          }
        }
        forall i | |items| <= i < |r| - 1 ensures r[i].uid != uid {
          assert before[i].uid == r[i].uid;
        }
      } else {
        forall u | u in uids ensures HasUid(before, u) {
          if u != uid { assert u in init; }
        }
      }
    }
  }

  /** The index listener's loop, reassigning the list once per admitted peer. */
  method MergeIndex(items: seq<ConversationItem>, uids: seq<string>) returns (r: seq<ConversationItem>)
    ensures r == Merged(items, uids)
    ensures |items| <= |r| && r[..|items|] == items
    ensures forall u :: u in uids ==> HasUid(r, u)
  {
    r := items;
    var i := 0;
    while i < |uids|
      invariant 0 <= i <= |uids|
      invariant r == Merged(items, uids[..i])
    {
      var uid := uids[i];
      assert uids[..i + 1][..i] == uids[..i];
      var present := false;
      var k := 0;
      while k < |r|
        invariant 0 <= k <= |r|
        invariant present <==> exists j :: 0 <= j < k && r[j].uid == uid
      {
        if r[k].uid == uid {
          present := true;
        }
        k := k + 1;
      }
      if !present {
        r := r + [ConversationItem(uid, 0, 0)];
      }
      i := i + 1;
    }
    assert uids[..|uids|] == uids;
    MergedProperties(items, uids);
  }

  // ---- display names ----

  /** The placeholder stored when a user has no name. */
  const UnknownName: string := "Utilisateur inconnu"

  /** The uids of the lines, in order. */
  function UidsOf(items: seq<ConversationItem>): (r: seq<string>)
    ensures |r| == |items| && forall i :: 0 <= i < |items| ==> r[i] == items[i].uid
  {
    if items == [] then [] else [items[0].uid] + UidsOf(items[1..])
  }

  /** The name lookups a listener issues: each uid without a cached name, once. */
  function PendingLookups(uids: seq<string>, usernames: map<string, string>): (r: seq<string>)
    ensures forall u :: u in r <==> u in uids && u !in usernames
    ensures forall i, j :: 0 <= i < j < |r| ==> r[i] != r[j]
  {
    if uids == [] then []
    else
      var init := uids[..|uids| - 1];
      var last := uids[|uids| - 1];
      assert forall u :: u in init ==> u in uids;
      PendingLookups(init, usernames) + if last !in usernames && last !in init then [last] else []
  }

  /** A completed lookup: the name, or the placeholder when the user has none; other names are untouched. */
  function NameLoaded(usernames: map<string, string>, uid: string, nom: Option<string>): (r: map<string, string>)
    ensures r.Keys == usernames.Keys + {uid}
    ensures nom.Some? ==> r[uid] == nom.value
    ensures nom.None? ==> r[uid] == UnknownName
    ensures forall u :: u in usernames && u != uid ==> r[u] == usernames[u]
  {
    usernames[uid := nom.GetOr(UnknownName)]
  }

  // ---- filter and delete ----

  /** The lines shown under a filter label: "Unread" shows lines with unread messages, any other label all lines. */
  function Filtered(items: seq<ConversationItem>, choice: string): (r: seq<ConversationItem>)
    ensures IsSubsequence(r, items)
    ensures choice != "Unread" ==> r == items
    ensures choice == "Unread" ==> forall it :: multiset(r)[it] == if it.unreadCount > 0 then multiset(items)[it] else 0
  {
    var shows := (it: ConversationItem) => choice != "Unread" || it.unreadCount > 0;
    FilterKeepsAll(items, shows);
    Filter(items, shows)
  }

  /** The list after a delete: every line for another user stays, in order. */
  function WithoutUid(items: seq<ConversationItem>, uid: string): (r: seq<ConversationItem>)
    ensures IsSubsequence(r, items)
    ensures forall it :: multiset(r)[it] == if it.uid != uid then multiset(items)[it] else 0
  {
    Filter(items, (it: ConversationItem) => it.uid != uid)
  }

  /** The state of the conversation list screen. */
  class RosterScreen {
    const self: string
    const store: Store
    var conversations: seq<ConversationItem>
    var usernames: map<string, string>
    var selectedFilter: string

    ghost predicate Valid()
      reads this, store
    {
      store.Valid()
    }

    constructor (self: string, store: Store)
      requires store.Valid()
      ensures Valid() && this.self == self && this.store == store
      ensures conversations == [] && usernames == map[] && selectedFilter == "All"
    {
      this.self, this.store := self, store;
      conversations, usernames, selectedFilter := [], map[], "All";
    }

    /** A snapshot of the whole message tree: rebuild the roster and name the lookups to issue. */
    method OnMessagesChanged(snapshot: seq<seq<RawMessage>>) returns (lookups: seq<string>)
      requires Valid()
      modifies this`conversations
      ensures Valid()
      ensures conversations == Roster(snapshot, self)
      ensures lookups == PendingLookups(UidsOf(Items(snapshot, self)), usernames)
    {
      conversations := BuildRoster(snapshot, self);
      lookups := PendingLookups(UidsOf(Items(snapshot, self)), usernames);
    }

    /** A snapshot of `conversations/{self}`: admit the indexed peers and name the lookups to issue. */
    method OnIndexChanged(uids: seq<string>) returns (lookups: seq<string>)
      requires Valid()
      modifies this`conversations
      ensures Valid()
      ensures conversations == Merged(old(conversations), uids)
      ensures lookups == PendingLookups(uids, usernames)
    {
      conversations := MergeIndex(conversations, uids);
      lookups := PendingLookups(uids, usernames);
    }

    /** A name lookup has completed. */
    method OnNameLoaded(uid: string, nom: Option<string>)
      requires Valid()
      modifies this`usernames
      ensures Valid()
      ensures usernames == NameLoaded(old(usernames), uid, nom)
    {
      usernames := NameLoaded(usernames, uid, nom);
    }

    /** A filter button. */
    method SelectFilter(choice: string)
      requires Valid()
      modifies this`selectedFilter
      ensures Valid() && selectedFilter == choice
    {
      selectedFilter := choice;
    }

    /** The lines on screen. */
    function Visible(): (r: seq<ConversationItem>)
      reads this
      ensures IsSubsequence(r, conversations)
      ensures selectedFilter != "Unread" ==> r == conversations
      ensures selectedFilter == "Unread" ==> forall it :: multiset(r)[it] == if it.unreadCount > 0 then multiset(conversations)[it] else 0
    {
      Filtered(conversations, selectedFilter)
    }

    /**
     * Confirming a conversation delete: the thread, both index directions and the
     * peer's lines go; the peer's own key for the thread is the same one.
     */
    method DeleteConversation(item: ConversationItem)
      requires Valid()
      modifies this`conversations, store
      ensures Valid()
      ensures store.messages == old(store.messages) - {ConversationId(self, item.uid)}
      ensures ConversationId(item.uid, self) !in store.messages
      ensures store.index == PutPeers(PutPeers(old(store.index), self, old(store.Peers(self)) - {item.uid}),
                                      item.uid, PeersOf(PutPeers(old(store.index), self, old(store.Peers(self)) - {item.uid}), item.uid) - {self})
      ensures item.uid !in store.Peers(self) && self !in store.Peers(item.uid)
      ensures store.composed == old(store.composed)
      ensures conversations == WithoutUid(old(conversations), item.uid)
    {
      var convId := ConversationId(self, item.uid);
      ConversationIdSymmetric(self, item.uid);
      store.RemoveThread(convId);
      store.Unlink(self, item.uid);
      store.Unlink(item.uid, self);
      conversations := WithoutUid(conversations, item.uid);
    }
  }
}
