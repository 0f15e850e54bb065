/** The chat sidebar: the roster and chat-list listeners, direct-chat find-or-create,
    group-chat creation with its form, and the member-selection toggle. */
module Sidebar {
  import opened Wrappers
  import opened Records
  import Seqs
  import Sorting
  import Text
  import Display

  // ---------------------------------------------------------------------------
  // Roster: the `users` listener

  /** The roster state: the other users, the loading flag and the last error message. */
  datatype Roster = Roster(users: seq<UserRecord>, loading: bool, error: Option<string>)

  /** What the `users` listener delivers: a full snapshot, or an error. */
  datatype UsersEvent = UsersDelivered(snapshot: seq<UserRecord>) | UsersFailed(message: string)

  /** Before the first delivery the roster is empty and loading. */
  const InitialRoster := Roster([], true, None)

  function NotUser(me: Uid): UserRecord -> bool {
    (u: UserRecord) => u.profile.uid != me
  }

  /** One delivery of the `users` listener for the signed-in uid `me`. A snapshot rebuilds
      the roster from scratch; an error keeps the last roster. */
  function OnUsersEvent(r: Roster, me: Uid, ev: UsersEvent): (r': Roster)
    ensures ev.UsersDelivered? ==>
              && (forall i :: 0 <= i < |r'.users| ==> r'.users[i] in ev.snapshot && r'.users[i].profile.uid != me)
              && (forall i :: 0 <= i < |ev.snapshot| && ev.snapshot[i].profile.uid != me ==> ev.snapshot[i] in r'.users)
              && multiset(r'.users) <= multiset(ev.snapshot)
              && !r'.loading && r'.error == None
    ensures ev.UsersFailed? ==> r'.users == r.users && !r'.loading && r'.error == Some(ev.message)
  {
    match ev
    case UsersDelivered(snapshot) =>
      Seqs.FilterSubMultiset(snapshot, NotUser(me));
      Roster(Seqs.Filter(snapshot, NotUser(me)), false, None)
    case UsersFailed(message) => Roster(r.users, false, Some(message))
  }

  /** The roster keeps snapshot order: the roster of a concatenation is the concatenation
      of the rosters, and a snapshot without `me` is taken as it is. */
  lemma {:induction false} RosterKeepsOrder(r: Roster, me: Uid, a: seq<UserRecord>, b: seq<UserRecord>)
    ensures OnUsersEvent(r, me, UsersDelivered(a + b)).users
            == OnUsersEvent(r, me, UsersDelivered(a)).users + OnUsersEvent(r, me, UsersDelivered(b)).users
    ensures (forall i :: 0 <= i < |a| ==> a[i].profile.uid != me) ==> OnUsersEvent(r, me, UsersDelivered(a)).users == a
  {
    Seqs.FilterConcat(a, b, NotUser(me));
    if forall i :: 0 <= i < |a| ==> a[i].profile.uid != me {
      Seqs.FilterKeepsAll(a, NotUser(me));
    }
  }

  /** The roster after a series of listener deliveries, oldest first. */
  function UsersRun(r: Roster, me: Uid, evs: seq<UsersEvent>): Roster
    decreases evs
  {
    if evs == [] then r else UsersRun(OnUsersEvent(r, me, evs[0]), me, evs[1..])
  }

  /** The loading flag clears with the first delivery of either kind and never comes back,
      and errors alone never change the roster. */
  lemma {:induction false} UsersRunLoading(r: Roster, me: Uid, evs: seq<UsersEvent>)
    ensures UsersRun(r, me, evs).loading <==> r.loading && evs == []
    ensures (forall i :: 0 <= i < |evs| ==> evs[i].UsersFailed?) ==> UsersRun(r, me, evs).users == r.users
    decreases evs
  {
    if evs != [] {
      UsersRunLoading(OnUsersEvent(r, me, evs[0]), me, evs[1..]);
      assert forall i :: 0 <= i < |evs[1..]| ==> evs[1..][i] == evs[i + 1];
    }
  }

  /** From the initial roster, the list shows loading exactly until the first delivery, and
      it stays empty until a snapshot arrives. */
  lemma InitialRosterLoading(me: Uid, evs: seq<UsersEvent>)
    ensures UsersRun(InitialRoster, me, evs).loading <==> evs == []
    ensures (forall i :: 0 <= i < |evs| ==> evs[i].UsersFailed?) ==> UsersRun(InitialRoster, me, evs).users == []
  {
    UsersRunLoading(InitialRoster, me, evs);
  }

  // ---------------------------------------------------------------------------
  // Chat list: the `chats` listener

  datatype ChatsEvent = ChatsDelivered(snapshot: seq<Chat>) | ChatsFailed(message: string)

  function Member(me: Uid): Chat -> bool {
    (c: Chat) => Includes(c, me)
  }

  /** Sort key of the chat list: ascending rank is descending `lastMessageTime`. */
  function Rank(c: Chat): int {
    0 - TimeOrZero(c)
  }

  ghost predicate NewestFirst(cs: seq<Chat>) {
    forall i, j :: 0 <= i < j < |cs| ==> TimeOrZero(cs[j]) <= TimeOrZero(cs[i])
  }

  /** The chats of a snapshot that list `me` as a participant, newest first. */
  function ProjectChats(me: Uid, snapshot: seq<Chat>): (r: seq<Chat>)
    ensures forall i :: 0 <= i < |r| ==> r[i] in snapshot && Includes(r[i], me)
    ensures forall i :: 0 <= i < |snapshot| && Includes(snapshot[i], me) ==> snapshot[i] in r
    ensures multiset(r) <= multiset(snapshot)
    ensures NewestFirst(r)
  {
    var mine := Seqs.Filter(snapshot, Member(me));
    var r := Sorting.SortBy(mine, Rank);
    Seqs.FilterSubMultiset(snapshot, Member(me));
    Seqs.SameElements(r, mine);
    r
  }

  /** Chats with equal timestamps keep their snapshot order. */
  lemma {:induction false} ProjectChatsStable(me: Uid, snapshot: seq<Chat>, t: nat)
    ensures Sorting.WithKey(ProjectChats(me, snapshot), Rank, 0 - t)
            == Sorting.WithKey(Seqs.Filter(snapshot, Member(me)), Rank, 0 - t)
  {
    var mine := Seqs.Filter(snapshot, Member(me));
    calc {
      Sorting.WithKey(ProjectChats(me, snapshot), Rank, 0 - t);
      { ProjectChatsSorts(me, snapshot); }
      Sorting.WithKey(Sorting.SortBy(mine, Rank), Rank, 0 - t);
      { Sorting.SortByStable(mine, Rank, 0 - t); }
      Sorting.WithKey(mine, Rank, 0 - t);
    }
  }

  lemma ProjectChatsSorts(me: Uid, snapshot: seq<Chat>)
    ensures ProjectChats(me, snapshot) == Sorting.SortBy(Seqs.Filter(snapshot, Member(me)), Rank)
  {
  }

  /** A chat without `lastMessageTime` is followed only by chats at time 0 or without a
      time: no timestamped chat sorts after it. */
  lemma UntimedSortLast(me: Uid, snapshot: seq<Chat>, i: nat, j: nat)
    requires i < j < |ProjectChats(me, snapshot)|
    requires ProjectChats(me, snapshot)[i].lastMessageTime.None?
    ensures TimeOrZero(ProjectChats(me, snapshot)[j]) == 0
  {
  }

  /** One delivery of the `chats` listener. An error only logs, so the list is kept. */
  function OnChatsEvent(list: seq<Chat>, me: Uid, ev: ChatsEvent): (r: seq<Chat>)
    ensures ev.ChatsFailed? ==> r == list
    ensures ev.ChatsDelivered? ==> r == ProjectChats(me, ev.snapshot)
  {
    match ev
    case ChatsDelivered(snapshot) => ProjectChats(me, snapshot)
    case ChatsFailed(_) => list
  }

  // ---------------------------------------------------------------------------
  // Direct chats

  /** The chat the sidebar would reuse for a direct conversation between `a` and `b`. */
  predicate IsDirectPair(c: Chat, a: Uid, b: Uid) {
    && c.kind == Direct
    && c.participants.Some?
    && a in c.participants.value
    && b in c.participants.value
    && |c.participants.value| == 2
  }

  function PairTest(a: Uid, b: Uid): Chat -> bool {
    (c: Chat) => IsDirectPair(c, a, b)
  }

  /** Result of an action that may write to the store and change the selected chat. */
  datatype Step = Step(store: Store, selected: Option<Chat>)

  function NewDirectChat(id: Id, me: Profile, other: Profile, now: nat): Chat {
    Chat(id, Direct, Some([me.uid, other.uid]),
         Put([(me.uid, DetailOf(me))], other.uid, DetailOf(other)),
         None, None, Some(now), "", Some(now))
  }

  /** `startDirectChat(other)`: read all chats; select the last direct chat for the pair
      without writing, or else add a new direct chat and select it. `readOk` and
      `writeOk` say whether the store calls succeed; a failure is logged and changes
      nothing. */
  function StartDirectChat(s: Store, selected: Option<Chat>, me: Profile, other: Profile, now: nat,
                           readOk: bool, writeOk: bool): (r: Step)
    ensures !readOk ==> r == Step(s, selected)
    ensures readOk && Seqs.Count(s.chats, PairTest(me.uid, other.uid)) > 0 ==>
              && r.store == s
              && exists i :: 0 <= i < |s.chats| && r.selected == Some(s.chats[i])
                             && IsDirectPair(s.chats[i], me.uid, other.uid)
                             && forall j :: i < j < |s.chats| ==> !IsDirectPair(s.chats[j], me.uid, other.uid)
    ensures readOk && Seqs.Count(s.chats, PairTest(me.uid, other.uid)) == 0 && !writeOk ==> r == Step(s, selected)
    ensures readOk && Seqs.Count(s.chats, PairTest(me.uid, other.uid)) == 0 && writeOk ==>
              && r.selected.Some?
              && r.store.chats == s.chats + [r.selected.value]
              && r.store.messages == s.messages
              && r.selected.value == NewDirectChat(s.nextId, me, other, now)
              && IsDirectPair(r.selected.value, me.uid, other.uid)
    ensures WellFormed(s) ==> WellFormed(r.store)
  {
    if !readOk then Step(s, selected)
    else match Seqs.LastIndex(s.chats, PairTest(me.uid, other.uid))
      case Some(i) => Step(s, Some(s.chats[i]))
      case None =>
        if !writeOk then Step(s, selected)
        else
          var c := NewDirectChat(s.nextId, me, other, now);
          Step(AddChat(s, c), Some(c))
  }

  /** With two different uids, the details of a new direct chat are the creator's entry
      followed by the other user's. */
  lemma DirectDetails(me: Profile, other: Profile)
    requires me.uid != other.uid
    ensures Put([(me.uid, DetailOf(me))], other.uid, DetailOf(other))
            == [(me.uid, DetailOf(me)), (other.uid, DetailOf(other))]
  {
    assert Keys([(me.uid, DetailOf(me))]) == {me.uid};
    PutPlace([(me.uid, DetailOf(me))], other.uid, DetailOf(other));
  }

  /** The record a new direct chat holds: type "direct", participants `[me, other]`, an
      empty last message, both timestamps `now`, and a details entry per participant with
      the display name falling back to the email. */
  lemma NewDirectChatShape(id: Id, me: Profile, other: Profile, now: nat)
    ensures var c := NewDirectChat(id, me, other, now);
      && c.kind == Direct && c.participants == Some([me.uid, other.uid])
      && c.lastMessage == "" && c.createdAt == Some(now) && c.lastMessageTime == Some(now)
      && c.name.None? && c.createdBy.None?
      && Keys(c.details) == {me.uid, other.uid}
      && Lookup(c.details, other.uid) == Some(DetailOf(other))
      && (me.uid != other.uid ==> Lookup(c.details, me.uid) == Some(DetailOf(me)))
  {
    var c := NewDirectChat(id, me, other, now);
    if me.uid == other.uid {
      assert c.details == [(other.uid, DetailOf(other))];
    } else {
      DirectDetails(me, other);
      var d := [(me.uid, DetailOf(me)), (other.uid, DetailOf(other))];
      assert d[1..] == [(other.uid, DetailOf(other))];
      assert Keys(d[1..]) == {other.uid};
      assert Lookup(d[1..], other.uid) == Some(DetailOf(other));
    }
  }

  /** Each side of a new direct chat sees the other side's name as its title (or "Unknown
      User" when that name is empty), provided the two users have different emails. */
  lemma DirectChatTitle(id: Id, me: Profile, other: Profile, now: nat)
    requires me.uid != other.uid && me.email != other.email
    ensures var c := NewDirectChat(id, me, other, now);
      && Display.ChatTitle(c, me) == (if DetailOf(other).displayName != "" then DetailOf(other).displayName else "Unknown User")
      && Display.ChatTitle(c, other) == (if DetailOf(me).displayName != "" then DetailOf(me).displayName else "Unknown User")
  {
    var c := NewDirectChat(id, me, other, now);
    var d := [(me.uid, DetailOf(me)), (other.uid, DetailOf(other))];
    DirectDetails(me, other);
    assert d[1..] == [(other.uid, DetailOf(other))];
    assert Seqs.FirstIndex(d[1..], Display.EmailOtherThan(me.email)) == Some(0);
    assert Seqs.FirstIndex(d, Display.EmailOtherThan(me.email)) == Some(1);
    assert Seqs.FirstIndex(d, Display.EmailOtherThan(other.email)) == Some(0);
  }

  /** The pair test does not depend on who starts the chat. */
  lemma PairSymmetric(c: Chat, a: Uid, b: Uid)
    ensures IsDirectPair(c, a, b) <==> IsDirectPair(c, b, a)
  {
  }

  /** Calling `startDirectChat` again for the same pair, once the first call has
      succeeded, writes nothing and selects the same chat; the store then holds exactly
      one direct chat for the pair if it held none before, and as many as before
      otherwise. */
  lemma {:induction false} StartDirectChatTwice(s: Store, sel: Option<Chat>, me: Profile, other: Profile,
                                                now1: nat, now2: nat, writeOk2: bool)
    ensures var r1 := StartDirectChat(s, sel, me, other, now1, true, true);
            var r2 := StartDirectChat(r1.store, r1.selected, me, other, now2, true, writeOk2);
            && r2 == r1
            && Seqs.Count(r1.store.chats, PairTest(me.uid, other.uid))
               == (if Seqs.Count(s.chats, PairTest(me.uid, other.uid)) == 0 then 1
                   else Seqs.Count(s.chats, PairTest(me.uid, other.uid)))
  {
    var p := PairTest(me.uid, other.uid);
    var r1 := StartDirectChat(s, sel, me, other, now1, true, true);
    match Seqs.LastIndex(s.chats, p)
    case Some(i) =>
    case None =>
      var c := r1.selected.value;
      assert r1.store.chats == s.chats + [c];
      Seqs.CountAppend(s.chats, c, p);
      assert Seqs.LastIndex(r1.store.chats, p) == Some(|s.chats|);
  }

  /** When the other user later starts a chat back, the pair test finds the same chat:
      the lookup is order-independent. */
  lemma {:induction false} StartDirectChatBack(s: Store, sel: Option<Chat>, sel2: Option<Chat>, me: Profile,
                                               other: Profile, now1: nat, now2: nat, writeOk2: bool)
    ensures var r1 := StartDirectChat(s, sel, me, other, now1, true, true);
            var r2 := StartDirectChat(r1.store, sel2, other, me, now2, true, writeOk2);
            r2.store == r1.store && r2.selected == r1.selected
  {
    var p := PairTest(me.uid, other.uid);
    var q := PairTest(other.uid, me.uid);
    LastIndexSame(s.chats, me.uid, other.uid);
    var r1 := StartDirectChat(s, sel, me, other, now1, true, true);
    LastIndexSame(r1.store.chats, me.uid, other.uid);
    if Seqs.LastIndex(s.chats, p).None? {
      assert IsDirectPair(r1.selected.value, other.uid, me.uid);
      assert r1.store.chats[|r1.store.chats| - 1] == r1.selected.value;
    }
  }

  lemma {:induction false} LastIndexSame(chats: seq<Chat>, a: Uid, b: Uid)
    ensures Seqs.LastIndex(chats, PairTest(a, b)) == Seqs.LastIndex(chats, PairTest(b, a))
  {
    if chats != [] {
      PairSymmetric(chats[|chats| - 1], a, b);
      LastIndexSame(chats[..|chats| - 1], a, b);
    }
  }

  // ---------------------------------------------------------------------------
  // Group chats

  /** The create-group form: visibility, the typed name and the picked users in order. */
  datatype GroupForm = GroupForm(visible: bool, name: string, picked: seq<UserRecord>)

  datatype GroupStep = GroupStep(store: Store, form: GroupForm, selected: Option<Chat>)

  const EmptyForm := GroupForm(false, "", [])

  function Uids(us: seq<UserRecord>): (r: seq<Uid>)
    ensures |r| == |us|
    ensures forall i :: 0 <= i < |us| ==> r[i] == us[i].profile.uid
  {
    seq(|us|, i requires 0 <= i < |us| => us[i].profile.uid)
  }

  /** The set of uids of `us`. */
  function UidSet(us: seq<UserRecord>): (r: set<Uid>)
    ensures forall u :: u in r <==> u in Uids(us)
  {
    if us == [] then {}
    else
      assert Uids(us) == [us[0].profile.uid] + Uids(us[1..]);
      {us[0].profile.uid} + UidSet(us[1..])
  }

  /** The `forEach` that adds one details entry per picked user, in pick order. */
  function PickedDetails(acc: Details, us: seq<UserRecord>): (r: Details)
    ensures Keys(r) == Keys(acc) + UidSet(us)
    ensures UniqueKeys(acc) ==> UniqueKeys(r)
    decreases us
  {
    if us == [] then acc
    else
      PutPlace(acc, us[0].profile.uid, DetailOf(us[0].profile));
      PickedDetails(Put(acc, us[0].profile.uid, DetailOf(us[0].profile)), us[1..])
  }

  lemma {:induction false} PickedDetailsOther(acc: Details, us: seq<UserRecord>, k: Uid)
    requires forall i :: 0 <= i < |us| ==> us[i].profile.uid != k
    ensures Lookup(PickedDetails(acc, us), k) == Lookup(acc, k)
    decreases us
  {
    if us != [] {
      PickedDetailsOther(Put(acc, us[0].profile.uid, DetailOf(us[0].profile)), us[1..], k);
    }
  }

  /** Each picked user's entry comes from that user's profile (from its last pick, if the
      same uid was picked twice). */
  lemma {:induction false} PickedDetailsLookup(acc: Details, us: seq<UserRecord>, i: nat)
    requires i < |us|
    requires forall j :: i < j < |us| ==> us[j].profile.uid != us[i].profile.uid
    ensures Lookup(PickedDetails(acc, us), us[i].profile.uid) == Some(DetailOf(us[i].profile))
    decreases us
  {
    var acc' := Put(acc, us[0].profile.uid, DetailOf(us[0].profile));
    if i == 0 {
      PickedDetailsOther(acc', us[1..], us[0].profile.uid);
    } else {
      PickedDetailsLookup(acc', us[1..], i - 1);
    }
  }

  function NewGroupChat(id: Id, me: Profile, name: string, picked: seq<UserRecord>, now: nat): Chat {
    Chat(id, Group, Some([me.uid] + Uids(picked)),
         PickedDetails([(me.uid, DetailOf(me))], picked),
         Some(Text.Trim(name)), Some(me.uid), Some(now), "", Some(now))
  }

  /** `createGroupChat()`: nothing happens unless the trimmed name is non-empty and some
      user is picked. Otherwise the group chat is added and selected and the form is
      reset; a failed write is logged and changes nothing. */
  function CreateGroupChat(s: Store, form: GroupForm, selected: Option<Chat>, me: Profile, now: nat,
                           writeOk: bool): (r: GroupStep)
    ensures Text.Trim(form.name) == "" || form.picked == [] || !writeOk ==> r == GroupStep(s, form, selected)
    ensures Text.Trim(form.name) != "" && form.picked != [] && writeOk ==>
              && r.selected == Some(NewGroupChat(s.nextId, me, form.name, form.picked, now))
              && r.store.chats == s.chats + [r.selected.value]
              && r.store.messages == s.messages
              && r.form == EmptyForm
    ensures WellFormed(s) ==> WellFormed(r.store)
  {
    if Text.Trim(form.name) == "" || form.picked == [] || !writeOk then GroupStep(s, form, selected)
    else
      var c := NewGroupChat(s.nextId, me, form.name, form.picked, now);
      GroupStep(AddChat(s, c), EmptyForm, Some(c))
  }

  /** The record a new group chat holds: type "group", the trimmed name, the creator
      followed by the picked users in pick order, the creator as `createdBy`, an empty last
      message and both timestamps `now`. */
  lemma GroupChatShape(id: Id, me: Profile, name: string, picked: seq<UserRecord>, now: nat)
    ensures var c := NewGroupChat(id, me, name, picked, now);
      && c.id == id
      && c.kind == Group
      && c.name == Some(Text.Trim(name))
      && c.participants.Some?
      && |c.participants.value| == |picked| + 1
      && c.participants.value[0] == me.uid
      && (forall i :: 0 <= i < |picked| ==> c.participants.value[i + 1] == picked[i].profile.uid)
      && c.createdBy == Some(me.uid)
      && c.lastMessage == ""
      && c.createdAt == Some(now) && c.lastMessageTime == Some(now)
  {
    var ps := [me.uid] + Uids(picked);
    assert NewGroupChat(id, me, name, picked, now).participants == Some(ps);
    assert forall i :: 0 <= i < |picked| ==> ps[i + 1] == Uids(picked)[i];
  }

  /** The details keys of a new group chat are exactly its participants, each once. */
  lemma GroupChatKeys(id: Id, me: Profile, name: string, picked: seq<UserRecord>, now: nat)
    ensures var c := NewGroupChat(id, me, name, picked, now);
      && c.participants.Some?
      && (forall i :: 0 <= i < |c.participants.value| ==> c.participants.value[i] in Keys(c.details))
      && (forall k :: k in Keys(c.details) ==> k in c.participants.value)
      && UniqueKeys(c.details)
  {
    var acc := [(me.uid, DetailOf(me))];
    var d := PickedDetails(acc, picked);
    var ps := [me.uid] + Uids(picked);
    assert Keys(acc) == {me.uid};
    assert UniqueKeys(acc);
    assert Keys(d) == {me.uid} + UidSet(picked);
    forall i | 0 <= i < |ps| ensures ps[i] in Keys(d) {
      if i > 0 { assert ps[i] == Uids(picked)[i - 1]; }
    }
    forall k | k in Keys(d) ensures k in ps {
      if k != me.uid {
        assert k in Uids(picked);
      }
    }
    assert NewGroupChat(id, me, name, picked, now).details == d;
    assert NewGroupChat(id, me, name, picked, now).participants == Some(ps);
  }

  /** Every picked user's details entry is built from that user's profile, and the
      creator's own entry from the creator's profile when the creator is not picked. */
  lemma GroupDetails(id: Id, me: Profile, name: string, picked: seq<UserRecord>, now: nat, i: nat)
    requires i < |picked|
    requires forall j :: i < j < |picked| ==> picked[j].profile.uid != picked[i].profile.uid
    ensures Lookup(NewGroupChat(id, me, name, picked, now).details, picked[i].profile.uid)
            == Some(DetailOf(picked[i].profile))
    ensures (forall j :: 0 <= j < |picked| ==> picked[j].profile.uid != me.uid)
            ==> Lookup(NewGroupChat(id, me, name, picked, now).details, me.uid) == Some(DetailOf(me))
  {
    PickedDetailsLookup([(me.uid, DetailOf(me))], picked, i);
    if forall j :: 0 <= j < |picked| ==> picked[j].profile.uid != me.uid {
      PickedDetailsOther([(me.uid, DetailOf(me))], picked, me.uid);
    }
  }

  // ---------------------------------------------------------------------------
  // Member selection

  predicate IsPicked(picked: seq<UserRecord>, uid: Uid) {
    exists i :: 0 <= i < |picked| && picked[i].profile.uid == uid
  }

  function OtherThan(u: UserRecord): UserRecord -> bool {
    (x: UserRecord) => x.profile.uid != u.profile.uid
  }

  /** `toggleUserSelection(user)`: drop every entry with the user's uid if there is one,
      otherwise append the user. */
  function Toggle(picked: seq<UserRecord>, u: UserRecord): (r: seq<UserRecord>)
    ensures IsPicked(r, u.profile.uid) <==> !IsPicked(picked, u.profile.uid)
    ensures forall v :: v != u.profile.uid ==> (IsPicked(r, v) <==> IsPicked(picked, v))
    ensures !IsPicked(picked, u.profile.uid) ==> r == picked + [u]
  {
    if IsPicked(picked, u.profile.uid) then
      var r := Seqs.Filter(picked, OtherThan(u));
      DropKeepsOthers(picked, u);
      r
    else
      var r := picked + [u];
      assert r[|picked|] == u;
      assert forall i :: 0 <= i < |picked| ==> r[i] == picked[i];
      r
  }

  lemma DropKeepsOthers(picked: seq<UserRecord>, u: UserRecord)
    ensures !IsPicked(Seqs.Filter(picked, OtherThan(u)), u.profile.uid)
    ensures forall v :: v != u.profile.uid ==> (IsPicked(Seqs.Filter(picked, OtherThan(u)), v) <==> IsPicked(picked, v))
  {
    var r := Seqs.Filter(picked, OtherThan(u));
    forall v | v != u.profile.uid ensures IsPicked(r, v) <==> IsPicked(picked, v) {
      if IsPicked(picked, v) {
        var i :| 0 <= i < |picked| && picked[i].profile.uid == v;
        assert OtherThan(u)(picked[i]);
        var j :| 0 <= j < |r| && r[j] == picked[i];
      }
      if IsPicked(r, v) {
        var j :| 0 <= j < |r| && r[j].profile.uid == v;
        var i :| 0 <= i < |picked| && picked[i] == r[j];
      }
    }
  }

  /** The entries for other users keep their relative order. */
  lemma {:induction false} ToggleKeepsOthers(picked: seq<UserRecord>, u: UserRecord)
    ensures Seqs.Filter(Toggle(picked, u), OtherThan(u)) == Seqs.Filter(picked, OtherThan(u))
  {
    if !IsPicked(picked, u.profile.uid) {
      Seqs.FilterConcat(picked, [u], OtherThan(u));
    } else {
      FilterTwice(picked, OtherThan(u));
    }
  }

  lemma {:induction false} FilterTwice(s: seq<UserRecord>, p: UserRecord -> bool)
    ensures Seqs.Filter(Seqs.Filter(s, p), p) == Seqs.Filter(s, p)
  {
    var f := Seqs.Filter(s, p);
    Seqs.FilterKeepsAll(f, p);
  }

  /** Toggling a user who is not picked twice restores the original selection. */
  lemma {:induction false} ToggleTwice(picked: seq<UserRecord>, u: UserRecord)
    requires !IsPicked(picked, u.profile.uid)
    ensures Toggle(Toggle(picked, u), u) == picked
  {
    assert (picked + [u])[|picked|] == u;
    Seqs.FilterConcat(picked, [u], OtherThan(u));
    Seqs.FilterKeepsAll(picked, OtherThan(u));
  }
}
