/** The documents of the chat store: user profiles, chats with their participant details,
    and messages; plus the store itself, modelled as immutable sequences and a map. */
module Records {
  import opened Wrappers
  import Text

  /** Authentication uid of a user. */
  type Uid = string

  /** Document id. The store allocates them (`addDoc` auto-ids); here they are naturals
      drawn from a counter, so a new id is always fresh. */
  type Id = nat

  /** The identity fields shared by the signed-in user and the user documents. */
  datatype Profile = Profile(uid: Uid, displayName: Option<string>, email: string, photoURL: Option<string>)

  /** A document of the `users` collection, with its document id. */
  datatype UserRecord = UserRecord(id: string, profile: Profile, isOnline: bool, lastSeen: Option<nat>)

  /** One value of a chat's `participantDetails` object. */
  datatype Detail = Detail(displayName: string, email: string, photoURL: Option<string>)

  /** `participantDetails` as an ordered association list: `Object.values` and `find` see
      the entries in property-creation order. */
  type Details = seq<(Uid, Detail)>

  /** The `type` field of a chat; `OtherKind` stands for any other or missing value. */
  datatype ChatKind = Direct | Group | OtherKind

  /** A document of the `chats` collection. A missing `participantDetails` is the empty
      list and a missing `lastMessage` is "", which the components treat alike. */
  datatype Chat = Chat(
    id: Id,
    kind: ChatKind,
    participants: Option<seq<Uid>>,
    details: Details,
    name: Option<string>,
    createdBy: Option<Uid>,
    createdAt: Option<nat>,
    lastMessage: string,
    lastMessageTime: Option<nat>)

  /** A document of a chat's `messages` sub-collection. */
  datatype Message = Message(
    id: Id,
    text: string,
    uid: Uid,
    displayName: string,
    email: string,
    createdAt: nat,
    edited: bool,
    editedAt: Option<nat>)

  /** The remote store: the chats in snapshot order, each chat's messages in insertion
      order (a missing key is an empty sub-collection), and the next free document id. */
  datatype Store = Store(chats: seq<Chat>, messages: map<Id, seq<Message>>, nextId: nat)

  /** The participant-details entry built from a profile: the display name falls back to
      the email, an empty photo URL becomes null. */
  function DetailOf(p: Profile): (d: Detail)
    ensures d.email == p.email
    ensures d.displayName == (if p.displayName.Some? && p.displayName.value != "" then p.displayName.value else p.email)
    ensures d.photoURL == (if p.photoURL.Some? && p.photoURL.value != "" then p.photoURL else None)
  {
    Detail(Text.OrElse(p.displayName, p.email), p.email, Text.NullIfEmpty(p.photoURL))
  }

  /** The property names of a details object. */
  function Keys(d: Details): (ks: set<Uid>)
    ensures forall i :: 0 <= i < |d| ==> d[i].0 in ks
  {
    if d == [] then {} else {d[0].0} + Keys(d[1..])
  }

  /** No property name occurs twice, as in any JavaScript object. */
  ghost predicate UniqueKeys(d: Details) {
    d == [] || (d[0].0 !in Keys(d[1..]) && UniqueKeys(d[1..]))
  }

  /** The value stored under `k`, if any. */
  function Lookup(d: Details, k: Uid): (r: Option<Detail>)
    ensures r.None? <==> k !in Keys(d)
    ensures r.Some? ==> exists i :: 0 <= i < |d| && d[i] == (k, r.value)
  {
    if d == [] then None
    else if d[0].0 == k then Some(d[0].1)
    else Lookup(d[1..], k)
  }

  /** `details[k] = v` on a JavaScript object: an existing property keeps its position and
      takes the new value; a new property goes last. */
  function Put(d: Details, k: Uid, v: Detail): (r: Details)
    ensures Keys(r) == Keys(d) + {k}
    ensures Lookup(r, k) == Some(v)
    ensures forall k' :: k' != k ==> Lookup(r, k') == Lookup(d, k')
  {
    if d == [] then [(k, v)]
    else
      if d[0].0 == k then
        assert ([(k, v)] + d[1..])[1..] == d[1..];
        [(k, v)] + d[1..]
      else
        var r := [d[0]] + Put(d[1..], k, v);
        assert r[1..] == Put(d[1..], k, v);
        r
  }

  /** Assigning a property keeps the names unique; it overwrites an existing name without
      changing the length and appends a new one. */
  lemma {:induction false} PutPlace(d: Details, k: Uid, v: Detail)
    ensures UniqueKeys(d) ==> UniqueKeys(Put(d, k, v))
    ensures k in Keys(d) ==> |Put(d, k, v)| == |d|
    ensures k !in Keys(d) ==> Put(d, k, v) == d + [(k, v)]
  {
    if d != [] && d[0].0 != k {
      var r := Put(d, k, v);
      PutPlace(d[1..], k, v);
      assert r[1..] == Put(d[1..], k, v);
      assert d == [d[0]] + d[1..];
    } else if d != [] {
      assert Put(d, k, v)[1..] == d[1..];
    }
  }

  /** With unique names, assigning an existing name replaces that entry in its position
      and leaves every other entry where it was. */
  lemma {:induction false} PutInPlace(d: Details, k: Uid, v: Detail)
    requires UniqueKeys(d) && k in Keys(d)
    ensures |Put(d, k, v)| == |d|
    ensures forall i :: 0 <= i < |d| ==> Put(d, k, v)[i] == (if d[i].0 == k then (k, v) else d[i])
  {
    var r := Put(d, k, v);
    if d[0].0 != k {
      PutInPlace(d[1..], k, v);
      assert r == [d[0]] + Put(d[1..], k, v);
      forall i | 0 <= i < |d| ensures r[i] == (if d[i].0 == k then (k, v) else d[i]) {
        if i > 0 { assert d[i] == d[1..][i - 1]; }
      }
    } else {
      assert r == [(k, v)] + d[1..];
      forall i | 0 < i < |d| ensures d[i].0 != k {
        assert d[1..][i - 1] == d[i];
      }
    }
  }

  /** `participants.includes(uid)`, false when `participants` is missing. */
  predicate Includes(c: Chat, uid: Uid) {
    c.participants.Some? && uid in c.participants.value
  }

  /** `lastMessageTime`, a missing one counting as time 0. */
  function TimeOrZero(c: Chat): nat {
    c.lastMessageTime.GetOr(0)
  }

  /** The messages stored for chat `chatId`. */
  function Msgs(s: Store, chatId: Id): seq<Message> {
    if chatId in s.messages then s.messages[chatId] else []
  }

  predicate HasChat(s: Store, chatId: Id) {
    exists i :: 0 <= i < |s.chats| && s.chats[i].id == chatId
  }

  /** Store invariant: every document id is below the allocation counter, chat ids are
      distinct, and message ids are distinct within a chat. */
  ghost predicate WellFormed(s: Store) {
    && (forall i :: 0 <= i < |s.chats| ==> s.chats[i].id < s.nextId)
    && (forall i, j :: 0 <= i < j < |s.chats| ==> s.chats[i].id != s.chats[j].id)
    && (forall c :: c in s.messages ==> MessageIdsBelow(s.messages[c], s.nextId))
    && (forall c :: c in s.messages ==> DistinctIds(s.messages[c]))
  }

  ghost predicate MessageIdsBelow(ms: seq<Message>, bound: nat) {
    forall i :: 0 <= i < |ms| ==> ms[i].id < bound
  }

  ghost predicate DistinctIds(ms: seq<Message>) {
    forall i, j :: 0 <= i < j < |ms| ==> ms[i].id != ms[j].id
  }

  /** `addDoc` on the `chats` collection: the chat gets the next free id and joins the
      snapshot. */
  function AddChat(s: Store, c: Chat): (r: Store)
    ensures r.chats == s.chats + [c.(id := s.nextId)]
    ensures r.messages == s.messages
    ensures WellFormed(s) ==> WellFormed(r)
  {
    Store(s.chats + [c.(id := s.nextId)], s.messages, s.nextId + 1)
  }
}
