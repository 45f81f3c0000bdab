/** The records the app stores and the rule that names a two-party thread. */
module Records {
  import opened Wrappers
  import opened Text

  /** One stored message; absent fields take the Kotlin data class defaults. */
  datatype Message = Message(
    senderId: string,
    receiverId: string,
    content: string,
    timestamp: int,
    read: Option<bool>,
    expiryTimestamp: Option<int>,
    imageBase64: Option<string>)

  /** What a record with no fields decodes to. */
  const DefaultMessage := Message("", "", "", 0, None, None, None)

  /** A message together with the store key it lives under. */
  datatype MessageWithId = MessageWithId(message: Message, id: string)

  /** The record the new-message composer pushes: fields `from`, `to`, `message`. */
  datatype ComposerRecord = ComposerRecord(from: string, to: string, message: string)

  const Separator: char := '_'

  /** The thread key: the two user ids sorted and joined with "_". */
  function ConversationId(a: string, b: string): (key: string)
    ensures |key| == |a| + |b| + 1
    ensures LexLeq(a, b) ==> key == a + [Separator] + b
    ensures !LexLeq(a, b) ==> LexLeq(b, a) && key == b + [Separator] + a
  {
    LexLeqTotal(a, b);
    if LexLeq(a, b) then a + [Separator] + b else b + [Separator] + a
  }

  /** Either participant computes the same key. */
  lemma ConversationIdSymmetric(a: string, b: string)
    ensures ConversationId(a, b) == ConversationId(b, a)
  {
    LexLeqTotal(a, b);
    if LexLeq(a, b) && LexLeq(b, a) {
      LexLeqAntisymmetric(a, b);
    }
  }

  /** Joining two ids free of the separator can be split back uniquely. */
  lemma JoinUnique(x: string, y: string, x': string, y': string)
    requires Separator !in x && Separator !in y && Separator !in x' && Separator !in y'
    requires x + [Separator] + y == x' + [Separator] + y'
    ensures x == x' && y == y'
  {
    var s := x + [Separator] + y;
    assert |x| == |x'| by {
      assert s[|x|] == Separator && s[|x'|] == Separator;
    }
    assert x == s[..|x|] && x' == s[..|x'|];
    assert y == s[|x| + 1..] && y' == s[|x'| + 1..];
  }

  /**
   * For ids that do not contain "_" the key identifies the unordered pair:
   * two pairs share a key exactly when they are the same pair.
   */
  lemma ConversationIdInjective(a: string, b: string, c: string, d: string)
    requires Separator !in a && Separator !in b && Separator !in c && Separator !in d
    ensures ConversationId(a, b) == ConversationId(c, d) <==> (a == c && b == d) || (a == d && b == c)
  {
    if ConversationId(a, b) == ConversationId(c, d) {
      var (a1, b1) := if LexLeq(a, b) then (a, b) else (b, a);
      var (c1, d1) := if LexLeq(c, d) then (c, d) else (d, c);
      JoinUnique(a1, b1, c1, d1);
    }
    if a == d && b == c {
      ConversationIdSymmetric(a, b);
    }
  }
}
