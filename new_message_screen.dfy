/** The new-message composer: validation, recipient lookup by name, and the pushed record. */
module NewMessageScreen {
  import opened Wrappers
  import opened Text
  import opened Records
  import opened Database
  import ConversationListScreen

  /** One child of the `users` snapshot: its key, and its `Nom` when that is a string. */
  datatype UserEntry = UserEntry(uid: string, nom: Option<string>)

  /** What pressing "Envoyer" leads to. */
  datatype Outcome = MissingFields | UserNotFound | Sent(record: ComposerRecord)

  const MissingFieldsText: string := "Champs obligatoires."
  const NotFoundText: string := "Utilisateur non trouv\U{E9}."
  const SentText: string := "Message envoy\U{E9} !"

  /** The confirmation line shown for an outcome. */
  function Confirmation(o: Outcome): string {
    match o
    case MissingFields => MissingFieldsText
    case UserNotFound => NotFoundText
    case Sent(_) => SentText
  }

  /** The user's `Nom` equals the entered name exactly. */
  predicate NameMatches(u: UserEntry, name: string) {
    u.nom == Some(name)
  }

  /** The first user, in snapshot order, whose name is exactly `name`. */
  function FindRecipient(users: seq<UserEntry>, name: string): (r: Option<string>)
    ensures r.None? <==> forall i :: 0 <= i < |users| ==> !NameMatches(users[i], name)
    ensures r.Some? ==> exists i :: 0 <= i < |users| && NameMatches(users[i], name) && users[i].uid == r.value
                                    && forall j :: 0 <= j < i ==> !NameMatches(users[j], name)
  {
    if users == [] then None
    else if NameMatches(users[0], name) then Some(users[0].uid)
    else
      var r := FindRecipient(users[1..], name);
      assert forall i :: 1 <= i < |users| ==> users[i] == users[1..][i - 1];
      r
  }

  /** Both fields are filled in and someone is signed in. */
  predicate FieldsFilled(recipientName: string, message: string, sender: Option<string>)
    ensures FieldsFilled(recipientName, message, sender) <==> Trim(recipientName) != [] && Trim(message) != [] && sender.Some?
  {
    !IsBlank(recipientName) && !IsBlank(message) && sender.Some?
  }

  /** The outcome of the send handler, given the `users` snapshot it reads. */
  function Compose(recipientName: string, message: string, sender: Option<string>, users: seq<UserEntry>): (o: Outcome)
    ensures o.MissingFields? <==> !FieldsFilled(recipientName, message, sender)
    ensures o.UserNotFound? <==> FieldsFilled(recipientName, message, sender) && FindRecipient(users, recipientName).None?
    ensures o.Sent? ==> && sender.Some? && o.record.from == sender.value
                        && FindRecipient(users, recipientName) == Some(o.record.to)
                        && o.record.message == message
  {
    if !FieldsFilled(recipientName, message, sender) then MissingFields
    else
      match FindRecipient(users, recipientName)
      case None => UserNotFound
      case Some(to) => Sent(ComposerRecord(sender.value, to, message))
  }

  /**
   * The record lands directly under `messages/`: to the roster listener it is a
   * "thread" of three plain values, none of which has the fields the listener reads.
   */
  function ComposerRecordAsThread(record: ComposerRecord): seq<ConversationListScreen.RawMessage> {
    var leaf := ConversationListScreen.RawMessage(None, None, None, None);
    [leaf, leaf, leaf]
  }

  /** A message sent from the composer adds no line to anyone's roster. */
  lemma ComposerRecordNotInRoster(snapshot: seq<seq<ConversationListScreen.RawMessage>>, self: string, record: ComposerRecord)
    ensures ConversationListScreen.Items(snapshot + [ComposerRecordAsThread(record)], self)
            == ConversationListScreen.Items(snapshot, self)
  {
    var s := snapshot + [ComposerRecordAsThread(record)];
    assert s[..|s| - 1] == snapshot;
    assert ConversationListScreen.Peer(ComposerRecordAsThread(record), self).None?;
  }

  /** The state of the composer screen. */
  class Composer {
    const store: Store
    var confirmation: Option<string>

    ghost predicate Valid()
      reads this, store
    {
      store.Valid()
    }

    constructor (store: Store)
      requires store.Valid()
      ensures Valid() && this.store == store && confirmation == None
    {
      this.store := store;
      confirmation := None;
    }

    /** The send button: push one record when a recipient is found, and set the confirmation line. */
    method OnSendClick(recipientName: string, message: string, sender: Option<string>, users: seq<UserEntry>, freshId: string)
      requires Valid()
      requires freshId !in store.composed
      modifies this`confirmation, store
      ensures Valid()
      ensures confirmation == Some(Confirmation(Compose(recipientName, message, sender, users)))
      ensures Compose(recipientName, message, sender, users).Sent? ==>
                store.composed == old(store.composed)[freshId := Compose(recipientName, message, sender, users).record]
      ensures !Compose(recipientName, message, sender, users).Sent? ==> store.composed == old(store.composed)
      ensures store.messages == old(store.messages) && store.index == old(store.index)
    {
      var outcome := Compose(recipientName, message, sender, users);
      if outcome.Sent? {
        store.PushComposed(freshId, outcome.record);
      }
      confirmation := Some(Confirmation(outcome));
    }
  }
}
