/**
 * The messages page: the contact list, built by feeding one entry per message
 * into a JavaScript `Map` keyed by the counterpart's id, and the conversation
 * with the selected contact.
 *
 * `me` is the signed-in account's id (`user?.id`), `None` when nobody is
 * signed in.
 */
module MessagesPage {
  import opened Wrappers
  import opened Seqs
  import opened HealthcareTypes

  // ---------------------------------------------------------------------------
  // A JavaScript `Map`, kept as its entries in insertion order.
  // ---------------------------------------------------------------------------

  function Keys<K, V>(m: seq<(K, V)>): (ks: seq<K>)
    ensures |ks| == |m|
    ensures forall i :: 0 <= i < |m| ==> ks[i] == m[i].0
  {
    seq(|m|, i requires 0 <= i < |m| => m[i].0)
  }

  /** `map.values()`: the values in key order. */
  function Values<K, V>(m: seq<(K, V)>): (vs: seq<V>)
    ensures |vs| == |m|
    ensures forall i :: 0 <= i < |m| ==> vs[i] == m[i].1
  {
    seq(|m|, i requires 0 <= i < |m| => m[i].1)
  }

  /** Position of key `k`, or `|m|` when it is absent. */
  function IndexOfKey<K(==), V>(m: seq<(K, V)>, k: K): (j: nat)
    ensures j <= |m|
    ensures j < |m| ==> m[j].0 == k
    ensures forall i :: 0 <= i < j ==> m[i].0 != k
  {
    if m == [] then 0 else if m[0].0 == k then 0 else 1 + IndexOfKey(m[1..], k)
  }

  /** `map.set(k, v)`: an existing key keeps its position and takes the new value; a new key goes last. */
  function MapSet<K(==), V>(m: seq<(K, V)>, k: K, v: V): seq<(K, V)>
  {
    var j := IndexOfKey(m, k);
    if j < |m| then m[j := (k, v)] else m + [(k, v)]
  }

  /** The value of the last entry with key `k`. */
  function LastValue<K(==), V>(es: seq<(K, V)>, k: K): V
    requires k in Keys(es)
  {
    var init, last := es[..|es| - 1], es[|es| - 1];
    if last.0 == k then last.1
    else
      assert k in Keys(init) by {
        var i :| 0 <= i < |es| && Keys(es)[i] == k;
        assert Keys(init)[i] == k;
      }
      LastValue(init, k)
  }

  /** The last entry carries the key: its value is the last value. */
  lemma LastValueHit<K, V>(es: seq<(K, V)>, k: K)
    requires es != [] && es[|es| - 1].0 == k
    ensures k in Keys(es) && LastValue(es, k) == es[|es| - 1].1
  {
    assert Keys(es)[|es| - 1] == k;
  }

  /** The last entry has another key: the last value is the one of the earlier entries. */
  lemma LastValueSkip<K, V>(es: seq<(K, V)>, k: K)
    requires k in Keys(es) && es[|es| - 1].0 != k
    ensures k in Keys(es[..|es| - 1]) && LastValue(es, k) == LastValue(es[..|es| - 1], k)
  {
    KeysOfPrefix(es);
  }

  lemma KeysOfPrefix<K, V>(es: seq<(K, V)>)
    requires es != []
    ensures Keys(es) == Keys(es[..|es| - 1]) + [es[|es| - 1].0]
  {
  }

  /**
   * `new Map(entries)`: one entry per distinct key, in order of the key's first
   * appearance, holding the value of the key's last entry.
   */
  function MapFromEntries<K(==,!new), V>(es: seq<(K, V)>): (m: seq<(K, V)>)
    ensures Keys(m) == Distinct(Keys(es))
    ensures forall i :: 0 <= i < |m| ==> m[i].0 in Keys(es) && m[i].1 == LastValue(es, m[i].0)
  {
    if es == [] then []
    else
      var init, last := es[..|es| - 1], es[|es| - 1];
      var m0 := MapFromEntries(init);
      KeysOfPrefix(es);
      var ks := Keys(es);
      assert ks[..|ks| - 1] == Keys(init);
      var m := MapSet(m0, last.0, last.1);
      assert Keys(m) == Distinct(ks) by {
        if last.0 in Keys(m0) {
          assert IndexOfKey(m0, last.0) < |m0|;
          assert Keys(m) == Keys(m0);
        } else {
          assert IndexOfKey(m0, last.0) == |m0|;
          assert Keys(m) == Keys(m0) + [last.0];
        }
      }
      m
  }

  // ---------------------------------------------------------------------------
  // Contacts.
  // ---------------------------------------------------------------------------

  datatype Contact = Contact(id: string, name: string, unread: bool)

  /** `m.senderId === user?.id`: nobody signed in sends nothing. */
  predicate IsMine(m: Message, me: Option<string>)
  {
    me == Some(m.senderId)
  }

  /** The other party of a message. */
  function CounterpartId(m: Message, me: Option<string>): string
  {
    if IsMine(m, me) then m.receiverId else m.senderId
  }

  /** The contact a message describes: its other party, unread when received and not read. */
  function ContactOf(m: Message, me: Option<string>): Contact
  {
    var mine := IsMine(m, me);
    Contact(CounterpartId(m, me), if mine then m.receiverName else m.senderName, !mine && !m.read)
  }

  function Entries(msgs: seq<Message>, me: Option<string>): seq<(string, Contact)>
  {
    MapSeq(msgs, m => (CounterpartId(m, me), ContactOf(m, me)))
  }

  /**
   * `Array.from(new Map(entries).values())`: one contact per distinct
   * counterpart, in order of the counterpart's first appearance.
   */
  function Contacts(msgs: seq<Message>, me: Option<string>): (cs: seq<Contact>)
    ensures |cs| == |Distinct(Counterparts(msgs, me))|
    ensures forall i :: 0 <= i < |cs| ==> cs[i].id == Distinct(Counterparts(msgs, me))[i]
  {
    ContactIdsAreKeys(msgs, me);
    Values(MapFromEntries(Entries(msgs, me)))
  }

  /** The counterpart of every message, in message order. */
  function Counterparts(msgs: seq<Message>, me: Option<string>): (ids: seq<string>)
    ensures |ids| == |msgs|
    ensures forall i :: 0 <= i < |msgs| ==> ids[i] == CounterpartId(msgs[i], me)
  {
    MapSeq(msgs, m => CounterpartId(m, me))
  }

  /** Index of the last message with counterpart `id`. */
  function LastIndexInvolving(msgs: seq<Message>, me: Option<string>, id: string): (j: nat)
    requires id in Counterparts(msgs, me)
    ensures j < |msgs| && CounterpartId(msgs[j], me) == id
    ensures forall k :: j < k < |msgs| ==> CounterpartId(msgs[k], me) != id
  {
    var n := |msgs| - 1;
    if CounterpartId(msgs[n], me) == id then n
    else
      CounterpartInPrefix(msgs, me, id);
      LastIndexInvolving(msgs[..n], me, id)
  }

  lemma EntriesKeys(msgs: seq<Message>, me: Option<string>)
    ensures Keys(Entries(msgs, me)) == Counterparts(msgs, me)
  {
  }

  /** Entries and counterparts of a prefix are the prefixes of the entries and counterparts. */
  lemma EntriesOfPrefix(msgs: seq<Message>, me: Option<string>, n: nat)
    requires n <= |msgs|
    ensures Entries(msgs, me)[..n] == Entries(msgs[..n], me)
    ensures Counterparts(msgs, me)[..n] == Counterparts(msgs[..n], me)
  {
  }

  /** A counterpart other than the last message's one already occurs in the earlier messages. */
  lemma CounterpartInPrefix(msgs: seq<Message>, me: Option<string>, id: string)
    requires id in Counterparts(msgs, me) && CounterpartId(msgs[|msgs| - 1], me) != id
    ensures id in Counterparts(msgs[..|msgs| - 1], me)
  {
    var i :| 0 <= i < |msgs| && Counterparts(msgs, me)[i] == id;
    assert Counterparts(msgs[..|msgs| - 1], me)[i] == id;
  }

  lemma {:induction false} LastValueIsLastMessage(msgs: seq<Message>, me: Option<string>, id: string)
    requires id in Counterparts(msgs, me)
    ensures Keys(Entries(msgs, me)) == Counterparts(msgs, me)
    ensures LastValue(Entries(msgs, me), id) == ContactOf(msgs[LastIndexInvolving(msgs, me, id)], me)
  {
    EntriesKeys(msgs, me);
    var es := Entries(msgs, me);
    var n := |msgs| - 1;
    assert es[n] == (CounterpartId(msgs[n], me), ContactOf(msgs[n], me));
    if CounterpartId(msgs[n], me) == id {
      LastValueHit(es, id);
    } else {
      var init := msgs[..n];
      EntriesOfPrefix(msgs, me, n);
      CounterpartInPrefix(msgs, me, id);
      LastValueIsLastMessage(init, me, id);
      LastValueSkip(es, id);
    }
  }

  /** The map holds one contact per distinct counterpart, each keyed by its own id. */
  lemma ContactIdsAreKeys(msgs: seq<Message>, me: Option<string>)
    ensures var m := MapFromEntries(Entries(msgs, me));
      && |m| == |Distinct(Counterparts(msgs, me))|
      && forall i :: 0 <= i < |m| ==> m[i].1.id == Distinct(Counterparts(msgs, me))[i]
  {
    EntriesKeys(msgs, me);
    var m := MapFromEntries(Entries(msgs, me));
    assert Keys(m) == Distinct(Counterparts(msgs, me));
    forall i | 0 <= i < |m|
      ensures m[i].1.id == Distinct(Counterparts(msgs, me))[i]
    {
      assert Keys(m)[i] == m[i].0;
      LastValueIsLastMessage(msgs, me, m[i].0);
    }
  }

  /**
   * One contact per distinct counterpart, in order of the counterpart's first
   * appearance; each contact's name and unread flag come from the last message
   * exchanged with that counterpart.
   */
  lemma ContactsFromLastMessage(msgs: seq<Message>, me: Option<string>)
    ensures var cs := Contacts(msgs, me);
      && |cs| == |Distinct(Counterparts(msgs, me))|
      && forall i :: 0 <= i < |cs| ==>
        && cs[i].id == Distinct(Counterparts(msgs, me))[i]
        && cs[i].id in Counterparts(msgs, me)
        && cs[i] == ContactOf(msgs[LastIndexInvolving(msgs, me, cs[i].id)], me)
  {
    var es := Entries(msgs, me);
    var m := MapFromEntries(es);
    var cs := Contacts(msgs, me);
    assert Keys(es) == Counterparts(msgs, me);
    forall i | 0 <= i < |cs|
      ensures cs[i].id == Distinct(Counterparts(msgs, me))[i]
      ensures cs[i].id in Counterparts(msgs, me)
      ensures cs[i] == ContactOf(msgs[LastIndexInvolving(msgs, me, cs[i].id)], me)
    {
      var k := m[i].0;
      assert Keys(m)[i] == k;
      LastValueIsLastMessage(msgs, me, k);
      assert cs[i] == ContactOf(msgs[LastIndexInvolving(msgs, me, k)], me);
    }
  }

  /** A contact is marked unread exactly when its last message was received and not read. */
  lemma UnreadOnlyForReceivedUnread(m: Message, me: Option<string>)
    ensures ContactOf(m, me).unread <==> me != Some(m.senderId) && !m.read
    ensures ContactOf(m, me).name == if me == Some(m.senderId) then m.receiverName else m.senderName
  {
  }

  // ---------------------------------------------------------------------------
  // Conversation.
  // ---------------------------------------------------------------------------

  /** A message between the signed-in user and the selected contact, either way. */
  predicate Between(m: Message, me: Option<string>, selected: Option<string>)
  {
    (Some(m.senderId) == selected && Some(m.receiverId) == me) ||
    (Some(m.senderId) == me && Some(m.receiverId) == selected)
  }

  function Conversation(msgs: seq<Message>, me: Option<string>, selected: Option<string>): (r: seq<Message>)
    ensures selected.None? ==> r == []
    ensures forall m :: m in r <==> m in msgs && Between(m, me, selected)
  {
    var r := Filter(msgs, m => Between(m, me, selected));
    assert selected.None? ==> r == [] by {
      if selected.None? {
        FilterNone(msgs, m => Between(m, me, selected));
      }
    }
    r
  }

  /** The conversation lists every such message once per occurrence, in original order. */
  lemma ConversationInOrder(msgs: seq<Message>, me: Option<string>, selected: Option<string>)
    ensures SubsequenceOf(Conversation(msgs, me, selected), msgs)
    ensures forall m ::
      multiset(Conversation(msgs, me, selected))[m] == (if Between(m, me, selected) then multiset(msgs)[m] else 0)
  {
    FilterIsSubsequence(msgs, m => Between(m, me, selected));
    FilterCounts(msgs, m => Between(m, me, selected));
  }
}
