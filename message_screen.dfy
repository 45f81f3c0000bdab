/**
 * The bookkeeping of one open thread: turning a snapshot into the ordered view,
 * acknowledging inbound messages, the expiry sweep, the countdown, editing and sending.
 */
module MessageScreen {
  import opened Wrappers
  import opened Text
  import opened Sequences
  import opened Records
  import opened Database

  /** One child of a thread snapshot: its key, and what decoding it yields (None: a null value). */
  datatype Child = Child(key: Option<string>, value: Option<Message>)

  /** The entry a decodable child contributes; a missing key reads as "". */
  function Entry(c: Child): MessageWithId
    requires c.value.Some?
  {
    MessageWithId(c.value.value, c.key.GetOr(""))
  }

  /** An inbound message still marked unread: the aggregator writes `read = true` for it. */
  predicate NeedsReadAck(m: Message, self: string) {
    m.receiverId == self && m.read == Some(false)
  }

  /** The decodable children of a snapshot, in snapshot order. */
  function Decoded(snapshot: seq<Child>): (r: seq<MessageWithId>)
    ensures |r| <= |snapshot|
    ensures forall e :: e in r <==> exists j :: 0 <= j < |snapshot| && snapshot[j].value.Some? && Entry(snapshot[j]) == e
  {
    if snapshot == [] then []
    else
      var init := snapshot[..|snapshot| - 1];
      var last := snapshot[|snapshot| - 1];
      assert forall j :: 0 <= j < |init| ==> init[j] == snapshot[j];
      Decoded(init) + if last.value.Some? then [Entry(last)] else []
  }

  /** Decoding a snapshot is decoding its parts. */
  lemma {:induction false} DecodedAppend(s: seq<Child>, t: seq<Child>)
    ensures Decoded(s + t) == Decoded(s) + Decoded(t)
    decreases |t|
  {
    if t == [] {
      assert s + t == s;
    } else {
      var t' := t[..|t| - 1];
      assert (s + t)[..|s + t| - 1] == s + t';
      DecodedAppend(s, t');
    }
  }

  /** The ids of the listed messages that need a read acknowledgement, in order. */
  function AckIds(list: seq<MessageWithId>, self: string): (r: seq<string>)
    ensures |r| <= |list|
    ensures forall id :: id in r <==> exists i :: 0 <= i < |list| && list[i].id == id && NeedsReadAck(list[i].message, self)
  {
    if list == [] then []
    else
      var init := list[..|list| - 1];
      var last := list[|list| - 1];
      assert forall j :: 0 <= j < |init| ==> init[j] == list[j];
      AckIds(init, self) + if NeedsReadAck(last.message, self) then [last.id] else []
  }

  /** Decoding one more child of the snapshot. */
  lemma DecodedStep(snapshot: seq<Child>, i: nat)
    requires i < |snapshot|
    ensures Decoded(snapshot[..i + 1]) == Decoded(snapshot[..i]) + if snapshot[i].value.Some? then [Entry(snapshot[i])] else []
  {
    assert snapshot[..i + 1][..i] == snapshot[..i];
    assert snapshot[..i + 1][i] == snapshot[i];
  }

  /** Acknowledging one more listed message. */
  lemma AckIdsStep(list: seq<MessageWithId>, e: MessageWithId, self: string)
    ensures AckIds(list + [e], self) == AckIds(list, self) + if NeedsReadAck(e.message, self) then [e.id] else []
  {
    assert (list + [e])[..|list|] == list;
  }

  /** The loop of `onDataChange`: collects the decodable children and the ids to acknowledge. */
  method CollectSnapshot(snapshot: seq<Child>, self: string) returns (list: seq<MessageWithId>, acks: seq<string>)
    ensures list == Decoded(snapshot)
    ensures acks == AckIds(list, self)
  {
    list, acks := [], [];
    var i := 0;
    while i < |snapshot|
      invariant 0 <= i <= |snapshot|
      invariant list == Decoded(snapshot[..i])
      invariant acks == AckIds(list, self)
    {
      var child := snapshot[i];
      DecodedStep(snapshot, i);
      if child.value.Some? {
        var entry := Entry(child);
        AckIdsStep(list, entry, self);
        list := list + [entry];
        if NeedsReadAck(entry.message, self) {
          acks := acks + [entry.id];
        }
      }
      i := i + 1;
    }
    assert snapshot[..|snapshot|] == snapshot;
  }

  /** The sort key of the thread view. */
  function TimestampKey(e: MessageWithId): int {
    e.message.timestamp
  }

  /**
   * The view a snapshot produces: exactly its decodable children (as a multiset),
   * ordered by timestamp.
   */
  function View(snapshot: seq<Child>): (r: seq<MessageWithId>)
    ensures multiset(r) == multiset(Decoded(snapshot))
    ensures forall i, j :: 0 <= i < j < |r| ==> r[i].message.timestamp <= r[j].message.timestamp
  {
    SortBySorted(Decoded(snapshot), TimestampKey);
    SortBy(Decoded(snapshot), TimestampKey)
  }

  /** The view keeps snapshot order among messages with equal timestamps. */
  lemma ViewStable(snapshot: seq<Child>)
    ensures forall t :: WithKey(View(snapshot), TimestampKey, t) == WithKey(Decoded(snapshot), TimestampKey, t)
  {
    forall t ensures WithKey(View(snapshot), TimestampKey, t) == WithKey(Decoded(snapshot), TimestampKey, t) {
      SortByStable(Decoded(snapshot), TimestampKey, t);
    }
  }

  /** `snapshot` is the full content of thread `t`: one child per record, with the record's value. */
  predicate SnapshotOf(snapshot: seq<Child>, t: Thread) {
    && (forall j :: 0 <= j < |snapshot| ==>
          snapshot[j].key.Some? && snapshot[j].key.value in t && snapshot[j].value == Some(t[snapshot[j].key.value]))
    && (forall id :: id in t ==> exists j :: 0 <= j < |snapshot| && snapshot[j].key == Some(id))
  }

  /**
   * Read propagation: after one cycle over a snapshot of the thread, no record
   * addressed to `self` is still unread; every other record and every other field is as before,
   * and a record's read flag only goes from false to true.
   */
  lemma ReadAckComplete(snapshot: seq<Child>, t: Thread, self: string)
    requires SnapshotOf(snapshot, t)
    ensures var t' := WithRead(t, IdSet(AckIds(Decoded(snapshot), self)));
      && t'.Keys == t.Keys
      && (forall id :: id in t' ==> !NeedsReadAck(t'[id], self))
      && (forall id :: id in t && !NeedsReadAck(t[id], self) ==> t'[id] == t[id])
      && (forall id :: id in t && NeedsReadAck(t[id], self) ==> t'[id] == t[id].(read := Some(true)))
  {
    var list := Decoded(snapshot);
    var acks := AckIds(list, self);
    var t' := WithRead(t, IdSet(acks));
    forall id | id in IdSet(acks) ensures id in t && NeedsReadAck(t[id], self) {
      var i :| 0 <= i < |list| && list[i].id == id && NeedsReadAck(list[i].message, self);
      assert list[i] in list;
      var j :| 0 <= j < |snapshot| && snapshot[j].value.Some? && Entry(snapshot[j]) == list[i];
    }
    forall id | id in t && NeedsReadAck(t[id], self) ensures id in IdSet(acks) {
      var j :| 0 <= j < |snapshot| && snapshot[j].key == Some(id);
      var e := Entry(snapshot[j]);
      assert e in list;
      var i :| 0 <= i < |list| && list[i] == e;
    }
  }

  // ---- expiry ----

  /** The durations the ephemeral-message menu offers, in seconds; 0 means permanent. */
  const Durations: set<int> := {0, 10, 30, 60}

  /** The deadline a new message gets: `now + seconds * 1000`, none for a permanent message. */
  function ExpiryDeadline(now: int, seconds: int): (r: Option<int>)
    ensures r.Some? <==> seconds > 0
    ensures r.Some? ==> r.value - now == seconds * 1000
  {
    if seconds > 0 then Some(now + seconds * 1000) else None
  }

  /** The sweep deletes a message once `now` is strictly past its deadline. */
  predicate IsExpired(m: Message, now: int)
    ensures IsExpired(m, now) ==> Countdown(m.expiryTimestamp, now).None?
  {
    m.expiryTimestamp.Some? && now > m.expiryTimestamp.value
  }

  /** The ids of the view's expired messages. */
  function ExpiredIds(view: seq<MessageWithId>, now: int): (r: set<string>)
    ensures forall id :: id in r <==> exists i :: 0 <= i < |view| && view[i].id == id && IsExpired(view[i].message, now)
  {
    if view == [] then {}
    else
      var init := view[..|view| - 1];
      var last := view[|view| - 1];
      assert forall j :: 0 <= j < |init| ==> init[j] == view[j];
      ExpiredIds(init, now) + if IsExpired(last.message, now) then {last.id} else {}
  }

  /** Euclidean division of a non-negative number brackets it between two multiples. */
  lemma DivBounds(a: int, b: int)
    requires a >= 0 && b > 0
    ensures a / b >= 0 && (a / b) * b <= a < (a / b) * b + b
  {
  }

  /** Long division, which truncates toward zero. */
  function TruncDiv(a: int, b: int): (q: int)
    requires b > 0
    ensures a >= 0 ==> q >= 0 && q * b <= a < q * b + b
    ensures a < 0 ==> q <= 0 && q * b >= a > q * b - b
  {
    if a >= 0 then
      DivBounds(a, b);
      a / b
    else
      DivBounds(-a, b);
      var q := (-a) / b;
      assert (-q) * b == -(q * b);
      -q
  }

  /**
   * The countdown shown under a message: the whole seconds left, only while at
   * least one whole second is left; nothing for a message without a deadline.
   */
  function Countdown(expiry: Option<int>, now: int): (r: Option<int>)
    ensures r.Some? <==> expiry.Some? && expiry.value - now >= 1000
    ensures r.Some? ==> r.value > 0 && r.value * 1000 <= expiry.value - now < r.value * 1000 + 1000
  {
    match expiry
    case None => None
    case Some(e) =>
      var remaining := TruncDiv(e - now, 1000);
      if remaining > 0 then Some(remaining) else None
  }

  /**
   * A message sent with a duration of `seconds` at `sent` counts down from `seconds`
   * and shows `seconds - k` after `k` whole seconds, until nothing is shown.
   */
  lemma CountdownAfterSend(sent: int, seconds: int, k: int)
    requires seconds in Durations && seconds > 0 && 0 <= k
    ensures k < seconds ==> Countdown(ExpiryDeadline(sent, seconds), sent + k * 1000) == Some(seconds - k)
    ensures k >= seconds ==> Countdown(ExpiryDeadline(sent, seconds), sent + k * 1000) == None
  {
    var e := sent + seconds * 1000;
    assert e - (sent + k * 1000) == (seconds - k) * 1000;
  }

  /**
   * The sweep removes a message sent with a duration of `seconds` at `sent` only
   * after the deadline: it survives a tick at the deadline and goes on the next millisecond.
   */
  lemma SweepAfterSend(m: Message, sent: int, seconds: int)
    requires seconds in Durations && m.expiryTimestamp == ExpiryDeadline(sent, seconds)
    ensures !IsExpired(m, sent + seconds * 1000)
    ensures seconds > 0 <==> IsExpired(m, sent + seconds * 1000 + 1)
  {
  }

  // ---- editing ----

  /** The suffix an edit appends to the stored content. */
  const EditMarker: string := " (modifi\U{E9})"

  /** The content an edit stores. */
  function EditedContent(draft: string): (r: string)
    ensures |r| >= |EditMarker| && r[|r| - |EditMarker|..] == EditMarker
    ensures r[..|r| - |EditMarker|] == Trim(draft)
  {
    Trim(draft) + EditMarker
  }

  /** The draft an edit starts from: the content with every marker occurrence removed. */
  function StripMarker(content: string): (r: string)
    ensures IsSubsequence(r, content)
    ensures !Occurs(EditMarker, content) ==> r == content
  {
    RemoveAllDeletes(content, EditMarker);
    if Occurs(EditMarker, content) then RemoveAll(content, EditMarker)
    else
      RemoveAllAbsent(content, EditMarker);
      RemoveAll(content, EditMarker)
  }

  /**
   * Starting an edit removes the first marker in the content and goes on after
   * it; with `StripMarker`'s unchanged case this fixes the preloaded draft for
   * every content.
   */
  lemma StripMarkerFirst(content: string, i: nat)
    requires OccursAt(EditMarker, content, i)
    requires forall k :: 0 <= k < i ==> !OccursAt(EditMarker, content, k)
    ensures StripMarker(content) == content[..i] + StripMarker(content[i + |EditMarker|..])
  {
    RemoveAllFirst(content, EditMarker, i);
  }

  lemma MarkerHeadUnique()
    ensures UnbordedHead(EditMarker)
  {
  }

  /**
   * Editing and then starting a new edit gives back the trimmed text, unless the
   * text itself contains the marker.
   */
  lemma EditRoundTrip(draft: string)
    requires !Occurs(EditMarker, Trim(draft))
    ensures StripMarker(EditedContent(draft)) == Trim(draft)
  {
    MarkerHeadUnique();
    RemoveAllAppended(Trim(draft), EditMarker);
  }

  /** Re-editing a message without touching the preloaded draft stores the same content again. */
  lemma ReEditStable(draft: string)
    requires !Occurs(EditMarker, Trim(draft))
    ensures EditedContent(StripMarker(EditedContent(draft))) == EditedContent(draft)
  {
    EditRoundTrip(draft);
    TrimIdempotent(draft);
  }

  /**
   * Stripping is a single pass: a content in which removing one marker joins two
   * halves of another still shows a marker in the preloaded draft.
   */
  lemma StripMarkerMayLeaveMarker(content: string)
    requires content == " (modif" + EditMarker + "i\U{E9})"
    ensures StripMarker(content) == EditMarker
    ensures Occurs(EditMarker, StripMarker(content))
  {
    StripInnerMarker(content);
    MarkerHeadUnique();
    assert content[7] == EditMarker[0];
    RemoveAllKeepsHead(content, EditMarker, 7);
    assert content[..7] + "i\U{E9})" == EditMarker;
    assert OccursAt(EditMarker, StripMarker(content), 0);
  }

  /** The pass removes the marker that starts after the first seven characters. */
  lemma StripInnerMarker(content: string)
    requires content == " (modif" + EditMarker + "i\U{E9})"
    ensures RemoveAll(content[7..], EditMarker) == "i\U{E9})"
  {
    var tail := "i\U{E9})";
    assert RemoveAll(tail, EditMarker) == tail;
    var s7 := content[7..];
    assert s7 == EditMarker + tail;
    assert s7[..|EditMarker|] == EditMarker;
    assert s7[|EditMarker|..] == tail;
  }

  // ---- sending ----

  /** The send button acts when the draft is not blank or an image is attached. */
  predicate CanSend(draft: string, image: Option<string>)
    ensures CanSend(draft, image) <==> Trim(draft) != [] || image.Some?
  {
    !IsBlank(draft) || image.Some?
  }

  /** The record a send pushes. */
  function NewRecord(sender: string, receiver: string, draft: string, image: Option<string>, seconds: int, now: int): (m: Message)
    ensures m.senderId == sender && m.receiverId == receiver
    ensures m.content == Trim(draft) && m.timestamp == now && m.read == Some(false)
    ensures m.expiryTimestamp == ExpiryDeadline(now, seconds) && m.imageBase64 == image
  {
    Message(sender, receiver, Trim(draft), now, Some(false), ExpiryDeadline(now, seconds), image)
  }

  /** A new message is unread for its receiver and is acknowledged on the receiver's next cycle. */
  lemma NewRecordNeedsAck(sender: string, receiver: string, draft: string, image: Option<string>, seconds: int, now: int)
    ensures NeedsReadAck(NewRecord(sender, receiver, draft, image, seconds, now), receiver)
  {
  }

  /** The state of one open thread screen. */
  class ThreadScreen {
    const self: string
    const peer: string
    const key: string
    const store: Store
    var messages: seq<MessageWithId>
    var draft: string
    var editing: Option<string>
    var image: Option<string>
    var expirySeconds: int

    ghost predicate Valid()
      reads this, store
    {
      key == ConversationId(self, peer) && expirySeconds in Durations && store.Valid()
    }

    constructor (self: string, peer: string, store: Store)
      requires store.Valid()
      ensures Valid()
      ensures this.self == self && this.peer == peer && this.store == store
      ensures messages == [] && draft == [] && editing == None && image == None && expirySeconds == 0
    {
      this.self, this.peer, this.store := self, peer, store;
      key := ConversationId(self, peer);
      messages, draft, editing, image, expirySeconds := [], [], None, None, 0;
    }

    /** A snapshot notification: rebuild the view and acknowledge inbound unread messages. */
    method OnDataChange(snapshot: seq<Child>)
      requires Valid()
      modifies this`messages, store
      ensures Valid()
      ensures messages == View(snapshot)
      ensures store.messages == PutThread(old(store.messages), key, WithRead(old(store.Thread(key)), IdSet(AckIds(Decoded(snapshot), self))))
      ensures store.index == old(store.index) && store.composed == old(store.composed)
    {
      var list, acks := CollectSnapshot(snapshot, self);
      store.MarkRead(key, acks);
      messages := SortBy(list, TimestampKey);
    }

    /** One tick of the expiry sweep: remove every message of the view that is past its deadline. */
    method SweepTick(now: int)
      requires Valid()
      modifies store
      ensures Valid()
      ensures store.messages == PutThread(old(store.messages), key, old(store.Thread(key)) - ExpiredIds(messages, now))
      ensures store.index == old(store.index) && store.composed == old(store.composed)
    {
      ghost var t0 := store.Thread(key);
      assert t0 - ExpiredIds(messages[..0], now) == t0;
      PutThreadSame(store.messages, key);
      var i := 0;
      while i < |messages|
        invariant 0 <= i <= |messages|
        invariant Valid()
        invariant store.messages == PutThread(old(store.messages), key, t0 - ExpiredIds(messages[..i], now))
        invariant store.index == old(store.index) && store.composed == old(store.composed)
      {
        var m := messages[i];
        ghost var before := ExpiredIds(messages[..i], now);
        assert messages[..i + 1][..i] == messages[..i];
        assert ExpiredIds(messages[..i + 1], now) == before + if IsExpired(m.message, now) then {m.id} else {};
        if IsExpired(m.message, now) {
          PutThreadTwice(old(store.messages), key, t0 - before, (t0 - before) - {m.id});
          assert (t0 - before) - {m.id} == t0 - (before + {m.id});
          store.RemoveMessage(key, m.id);
          assert store.messages == PutThread(old(store.messages), key, (t0 - before) - {m.id});
          assert store.messages == PutThread(old(store.messages), key, t0 - ExpiredIds(messages[..i + 1], now));
        } else {
          assert ExpiredIds(messages[..i + 1], now) == before;
          assert store.messages == PutThread(old(store.messages), key, t0 - ExpiredIds(messages[..i + 1], now));
        }
        i := i + 1;
      }
      assert messages[..|messages|] == messages;
    }

    /** Picking a duration from the ephemeral-message menu. */
    method SelectDuration(seconds: int)
      requires Valid() && seconds in Durations
      modifies this`expirySeconds
      ensures Valid() && expirySeconds == seconds
    {
      expirySeconds := seconds;
    }

    /** "Modifier" on one of the user's own messages: preload the draft and the image. */
    method StartEdit(m: MessageWithId)
      requires Valid() && m.message.senderId == self
      modifies this`draft, this`editing, this`image
      ensures Valid()
      ensures draft == StripMarker(m.message.content) && editing == Some(m.id) && image == m.message.imageBase64
    {
      draft := StripMarker(m.message.content);
      editing := Some(m.id);
      image := m.message.imageBase64;
    }

    /** The send button: edit the message being edited, or push a new one; nothing when there is nothing to send. */
    method OnSendClick(now: int, freshId: string)
      requires Valid()
      requires freshId !in store.Thread(key)
      modifies this`draft, this`editing, this`image, store
      ensures Valid()
      ensures !CanSend(old(draft), old(image)) ==>
        && draft == old(draft) && editing == old(editing) && image == old(image)
        && store.messages == old(store.messages) && store.index == old(store.index)
      ensures CanSend(old(draft), old(image)) ==> draft == [] && editing == None && image == None
      ensures CanSend(old(draft), old(image)) && old(editing).Some? ==>
        && store.messages == PutThread(old(store.messages), key,
             WithEdit(old(store.Thread(key)), old(editing).value, EditedContent(old(draft)), old(image)))
        && store.index == old(store.index)
      ensures CanSend(old(draft), old(image)) && old(editing).None? ==>
        && store.messages == PutThread(old(store.messages), key,
             old(store.Thread(key))[freshId := NewRecord(self, peer, old(draft), old(image), expirySeconds, now)])
        && store.index == PutPeers(PutPeers(old(store.index), self, old(store.Peers(self)) + {peer}),
                                   peer, PeersOf(PutPeers(old(store.index), self, old(store.Peers(self)) + {peer}), peer) + {self})
      ensures store.composed == old(store.composed)
    {
      if CanSend(draft, image) {
        if editing.Some? {
          store.Edit(key, editing.value, EditedContent(draft), image);
          editing := None;
        } else {
          store.Push(key, freshId, NewRecord(self, peer, draft, image, expirySeconds, now));
          store.Link(self, peer);
          store.Link(peer, self);
        }
        draft := [];
        image := None;
      }
    }

    /** Confirming the delete dialog of one message. */
    method DeleteMessage(id: string)
      requires Valid()
      modifies store
      ensures Valid()
      ensures store.messages == PutThread(old(store.messages), key, old(store.Thread(key)) - {id})
      ensures store.index == old(store.index) && store.composed == old(store.composed)
    {
      store.RemoveMessage(key, id);
    }

    /** "Supprimer la conversation" in the thread menu: removes the messages only, the index entries stay. */
    method DeleteConversation()
      requires Valid()
      modifies store
      ensures Valid()
      ensures store.messages == old(store.messages) - {key}
      ensures store.index == old(store.index) && store.composed == old(store.composed)
    {
      store.RemoveThread(key);
    }
  }
}
