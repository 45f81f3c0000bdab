/**
 * The realtime store, held in memory: `messages/{key}/{id}` as a map of maps,
 * `conversations/{user}/{peer}` as a map from user to a set of peers, and the
 * records the composer pushes directly under `messages/{id}`.
 * A write is a map update; a node left without children disappears, as in the store.
 */
module Database {
  import opened Wrappers
  import opened Records

  type Thread = map<string, Message>
  type Threads = map<string, Thread>
  type Index = map<string, set<string>>

  /** The record at `id`; a child write to an absent record starts from the defaults. */
  function MessageAt(t: Thread, id: string): (m: Message)
    ensures id in t ==> m == t[id]
    ensures id !in t ==> m == DefaultMessage
  {
    if id in t then t[id] else DefaultMessage
  }

  /** The messages under `key`, none when the node is absent. */
  function ThreadOf(ms: Threads, key: string): Thread {
    if key in ms then ms[key] else map[]
  }

  /** The peers under `u`, none when the node is absent. */
  function PeersOf(idx: Index, u: string): set<string> {
    if u in idx then idx[u] else {}
  }

  /** Stores `t` as thread `key`; an empty thread is no node at all. Other threads are untouched. */
  function PutThread(ms: Threads, key: string, t: Thread): (r: Threads)
    ensures ThreadOf(r, key) == t
    ensures key in r <==> t != map[]
    ensures forall k :: k != key ==> (k in r <==> k in ms)
    ensures forall k :: k != key && k in ms ==> r[k] == ms[k]
  {
    if t == map[] then ms - {key} else ms[key := t]
  }

  /** Stores `peers` as the index entry of `u`; an empty entry is no node at all. */
  function PutPeers(idx: Index, u: string, peers: set<string>): (r: Index)
    ensures PeersOf(r, u) == peers
    ensures u in r <==> peers != {}
    ensures forall v :: v != u ==> (v in r <==> v in idx)
    ensures forall v :: v != u && v in idx ==> r[v] == idx[v]
  {
    if peers == {} then idx - {u} else idx[u := peers]
  }

  /** The thread after `read = true` is written to every id in `ids`. */
  function WithRead(t: Thread, ids: set<string>): (r: Thread)
    ensures r.Keys == t.Keys + ids
    ensures forall id :: id in ids ==> r[id] == MessageAt(t, id).(read := Some(true))
    ensures forall id :: id in t && id !in ids ==> r[id] == t[id]
  {
    map id | id in t.Keys + ids :: if id in ids then MessageAt(t, id).(read := Some(true)) else t[id]
  }

  /** The thread after the edit writes `content` and `imageBase64` of `id` (a null image removes the field). */
  function WithEdit(t: Thread, id: string, content: string, image: Option<string>): (r: Thread)
    ensures r.Keys == t.Keys + {id}
    ensures r[id] == MessageAt(t, id).(content := content, imageBase64 := image)
    ensures forall other :: other in t && other != id ==> r[other] == t[other]
  {
    t[id := MessageAt(t, id).(content := content, imageBase64 := image)]
  }

  /** The ids listed in `ids`. */
  function IdSet(ids: seq<string>): (r: set<string>)
    ensures forall id :: id in r <==> id in ids
  {
    set id | id in ids
  }

  lemma IdSetAppend(ids: seq<string>, id: string)
    ensures IdSet(ids + [id]) == IdSet(ids) + {id}
  {
  }

  /** Writing back a thread as it is changes nothing in a store without empty nodes. */
  lemma PutThreadSame(ms: Threads, key: string)
    requires key in ms ==> ms[key] != map[]
    ensures PutThread(ms, key, ThreadOf(ms, key)) == ms
  {
  }

  /** Writing a thread twice keeps the second write only. */
  lemma PutThreadTwice(ms: Threads, key: string, t: Thread, t': Thread)
    ensures PutThread(PutThread(ms, key, t), key, t') == PutThread(ms, key, t')
  {
  }

  /** Marking ids read one at a time is marking them all at once. */
  lemma WithReadStep(t: Thread, ids: set<string>, id: string)
    ensures WithRead(WithRead(t, ids), {id}) == WithRead(t, ids + {id})
  {
    var a := WithRead(WithRead(t, ids), {id});
    var b := WithRead(t, ids + {id});
    assert a.Keys == b.Keys;
    forall x | x in a.Keys ensures a[x] == b[x] {
      if x == id && id in ids {
        assert MessageAt(WithRead(t, ids), id) == MessageAt(t, id).(read := Some(true));
      }
    }
  }

  class Store {
    var messages: Threads
    var index: Index
    var composed: map<string, ComposerRecord>

    /** The store never holds an empty node. */
    ghost predicate Valid()
      reads this
    {
      && (forall k :: k in messages ==> messages[k] != map[])
      && (forall u :: u in index ==> index[u] != {})
    }

    function Thread(key: string): Thread
      reads this
    {
      ThreadOf(messages, key)
    }

    function Peers(u: string): set<string>
      reads this
    {
      PeersOf(index, u)
    }

    constructor ()
      ensures Valid()
      ensures messages == map[] && index == map[] && composed == map[]
    {
      messages, index, composed := map[], map[], map[];
    }

    /** `messages/{key}/{id}.setValue(m)` for a fresh push id. */
    method Push(key: string, id: string, m: Message)
      requires Valid()
      requires id !in Thread(key)
      modifies this
      ensures Valid()
      ensures messages == PutThread(old(messages), key, old(Thread(key))[id := m])
      ensures index == old(index) && composed == old(composed)
    {
      messages := PutThread(messages, key, Thread(key)[id := m]);
    }

    /** `messages/{key}/{id}/read.setValue(true)` for every id in `ids`. */
    method MarkRead(key: string, ids: seq<string>)
      requires Valid()
      modifies this
      ensures Valid()
      ensures messages == PutThread(old(messages), key, WithRead(old(Thread(key)), IdSet(ids)))
      ensures index == old(index) && composed == old(composed)
    {
      ghost var t0 := Thread(key);
      assert WithRead(t0, {}) == t0;
      assert IdSet(ids[..0]) == {};
      PutThreadSame(messages, key);
      var i := 0;
      while i < |ids|
        invariant 0 <= i <= |ids|
        invariant Valid()
        invariant messages == PutThread(old(messages), key, WithRead(t0, IdSet(ids[..i])))
        invariant index == old(index) && composed == old(composed)
      {
        ghost var done := IdSet(ids[..i]);
        WithReadStep(t0, done, ids[i]);
        PutThreadTwice(old(messages), key, WithRead(t0, done), WithRead(WithRead(t0, done), {ids[i]}));
        assert ids[..i + 1] == ids[..i] + [ids[i]];
        IdSetAppend(ids[..i], ids[i]);
        messages := PutThread(messages, key, WithRead(Thread(key), {ids[i]}));
        i := i + 1;
      }
      assert ids[..|ids|] == ids;
    }

    /** The two child writes of an edit: `content`, then `imageBase64`. */
    method Edit(key: string, id: string, content: string, image: Option<string>)
      requires Valid()
      modifies this
      ensures Valid()
      ensures messages == PutThread(old(messages), key, WithEdit(old(Thread(key)), id, content, image))
      ensures index == old(index) && composed == old(composed)
    {
      messages := PutThread(messages, key, WithEdit(Thread(key), id, content, image));
    }

    /** `messages/{key}/{id}.removeValue()`; removing an absent record changes nothing. */
    method RemoveMessage(key: string, id: string)
      requires Valid()
      modifies this
      ensures Valid()
      ensures messages == PutThread(old(messages), key, old(Thread(key)) - {id})
      ensures index == old(index) && composed == old(composed)
    {
      messages := PutThread(messages, key, Thread(key) - {id});
    }

    /** `messages/{key}.removeValue()`. */
    method RemoveThread(key: string)
      requires Valid()
      modifies this
      ensures Valid()
      ensures messages == old(messages) - {key}
      ensures index == old(index) && composed == old(composed)
    {
      messages := messages - {key};
    }

    /** `conversations/{u}/{p}.setValue(true)`. */
    method Link(u: string, p: string)
      requires Valid()
      modifies this
      ensures Valid()
      ensures index == PutPeers(old(index), u, old(Peers(u)) + {p})
      ensures messages == old(messages) && composed == old(composed)
    {
      index := PutPeers(index, u, Peers(u) + {p});
    }

    /** `conversations/{u}/{p}.removeValue()`. */
    method Unlink(u: string, p: string)
      requires Valid()
      modifies this
      ensures Valid()
      ensures index == PutPeers(old(index), u, old(Peers(u)) - {p})
      ensures messages == old(messages) && composed == old(composed)
    {
      index := PutPeers(index, u, Peers(u) - {p});
    }

    /** `messages/{id}.setValue(record)` for a fresh push id, as the composer writes it. */
    method PushComposed(id: string, record: ComposerRecord)
      requires Valid()
      requires id !in composed
      modifies this
      ensures Valid()
      ensures composed == old(composed)[id := record]
      ensures messages == old(messages) && index == old(index)
    {
      composed := composed[id := record];
    }
  }
}
