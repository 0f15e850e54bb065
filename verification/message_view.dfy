/** One rendered message: who owns it, which controls it shows, and the inline edit
    state machine that turns key presses into edit and delete requests. */
module MessageView {
  import opened Records
  import Text
  import Window

  /** The component state: edit mode, the draft text, and whether the mouse is over it. */
  datatype View = View(isEditing: bool, draft: string, showActions: bool)

  /** The user inputs the component reacts to. Key events reach the handler only while
      the edit box is rendered; `OtherKey` is any key other than Enter and Escape. */
  datatype Event =
    | MouseEnter
    | MouseLeave
    | ClickEdit
    | ClickDelete
    | Type(text: string)
    | Enter(shift: bool)
    | Escape
    | OtherKey
    | Blur

  /** What the component asks its parent to do. */
  datatype Request = NoRequest | EditRequest(id: Id, text: string) | DeleteRequest(id: Id)

  datatype Reaction = Reaction(view: View, request: Request)

  /** The initial state: not editing, the draft is the message text. */
  function Initial(m: Message): View {
    View(false, m.text, false)
  }

  /** A message is the signed-in user's own exactly when the uids match. */
  predicate IsOwn(m: Message, me: Profile) {
    m.uid == me.uid
  }

  /** Edit and Delete are shown while hovered, for own messages, outside edit mode. */
  predicate ActionsShown(v: View, m: Message, me: Profile) {
    v.showActions && IsOwn(m, me) && !v.isEditing
  }

  /** "(edited)" is shown, outside edit mode, for edited messages. */
  predicate EditedMarkerShown(v: View, m: Message) {
    !v.isEditing && m.edited
  }

  /** `handleEdit`: request an edit with the trimmed draft when it differs from the stored
      text, and leave edit mode in any case. */
  function HandleEdit(v: View, m: Message): (r: Reaction)
    ensures !r.view.isEditing
    ensures r.view.draft == v.draft && r.view.showActions == v.showActions
    ensures r.request != NoRequest <==> Text.Trim(v.draft) != m.text
    ensures r.request != NoRequest ==> r.request == EditRequest(m.id, Text.Trim(v.draft))
  {
    var request := if Text.Trim(v.draft) != m.text then EditRequest(m.id, Text.Trim(v.draft)) else NoRequest;
    Reaction(v.(isEditing := false), request)
  }

  /** The component's reaction to one event. */
  function Step(v: View, m: Message, me: Profile, e: Event): (r: Reaction)
    ensures r.request.DeleteRequest? ==> r.request.id == m.id && ActionsShown(v, m, me)
    ensures r.request.EditRequest? ==> r.request.id == m.id && v.isEditing
    ensures r.view.isEditing && !v.isEditing ==> e == ClickEdit && ActionsShown(v, m, me)
    ensures e == Escape && v.isEditing ==> r == Reaction(v.(isEditing := false, draft := m.text), NoRequest)
    ensures v.isEditing && (e == Enter(false) || e == Blur) ==> r == HandleEdit(v, m)
    ensures e == ClickEdit && ActionsShown(v, m, me) ==> r.view.isEditing && r.request == NoRequest
    ensures e == ClickDelete && ActionsShown(v, m, me) ==> r.request == DeleteRequest(m.id)
  {
    match e
    case MouseEnter => Reaction(v.(showActions := true), NoRequest)
    case MouseLeave => Reaction(v.(showActions := false), NoRequest)
    case ClickEdit =>
      if ActionsShown(v, m, me) then Reaction(v.(isEditing := true), NoRequest) else Reaction(v, NoRequest)
    case ClickDelete =>
      if ActionsShown(v, m, me) then Reaction(v, DeleteRequest(m.id)) else Reaction(v, NoRequest)
    case Type(text) =>
      if v.isEditing then Reaction(v.(draft := text), NoRequest) else Reaction(v, NoRequest)
    case Enter(shift) =>
      if v.isEditing && !shift then HandleEdit(v, m) else Reaction(v, NoRequest)
    case Escape =>
      if v.isEditing then Reaction(v.(isEditing := false, draft := m.text), NoRequest) else Reaction(v, NoRequest)
    case OtherKey => Reaction(v, NoRequest)
    case Blur =>
      if v.isEditing then HandleEdit(v, m) else Reaction(v, NoRequest)
  }

  /** Feeds a sequence of events to the component and collects the requests it makes. */
  function Run(v: View, m: Message, me: Profile, events: seq<Event>): (View, seq<Request>)
    decreases events
  {
    if events == [] then (v, [])
    else
      var r := Step(v, m, me, events[0]);
      var (v', requests) := Run(r.view, m, me, events[1..]);
      (v', (if r.request == NoRequest then [] else [r.request]) + requests)
  }

  /** Edit mode is only entered through the Edit action, so it implies ownership. */
  ghost predicate Inv(v: View, m: Message, me: Profile) {
    v.isEditing ==> IsOwn(m, me)
  }

  /** Every request a message component makes, from its initial state and whatever the
      user does, is about that message and comes from its author: others' messages never
      yield an edit or a delete. */
  lemma {:induction false} RunRequestsOnlyOwn(v: View, m: Message, me: Profile, events: seq<Event>)
    requires Inv(v, m, me)
    ensures Inv(Run(v, m, me, events).0, m, me)
    ensures forall i :: 0 <= i < |Run(v, m, me, events).1| ==>
              Run(v, m, me, events).1[i] != NoRequest && Run(v, m, me, events).1[i].id == m.id
    ensures Run(v, m, me, events).1 != [] ==> IsOwn(m, me)
    decreases events
  {
    if events != [] {
      var r := Step(v, m, me, events[0]);
      RunRequestsOnlyOwn(r.view, m, me, events[1..]);
    }
  }

  lemma FromInitialOnlyOwn(m: Message, me: Profile, events: seq<Event>)
    requires !IsOwn(m, me)
    ensures Run(Initial(m), m, me, events).1 == []
  {
    RunRequestsOnlyOwn(Initial(m), m, me, events);
  }

  /** There is no empty-text guard: a white-space-only draft on a non-empty message is
      sent as the empty text. */
  lemma BlankDraftClearsText(v: View, m: Message)
    requires Text.AllSpace(v.draft) && m.text != ""
    ensures HandleEdit(v, m).request == EditRequest(m.id, "")
  {
    Text.TrimEmptyIff(v.draft);
  }

  /** Stored text with white space at either end is rewritten to its trimmed form even
      when the draft was left unchanged. */
  lemma UnchangedDraftTrimsText(m: Message)
    requires Text.Trim(m.text) != m.text
    ensures HandleEdit(Initial(m).(isEditing := true), m).request == EditRequest(m.id, Text.Trim(m.text))
  {
  }

  /** Once the edit is stored, the message shows "(edited)" outside edit mode. */
  lemma EditedMarkerAfterEdit(ms: seq<Message>, msgId: Id, text: string, now: nat, v: View, i: nat)
    requires i < |ms| && ms[i].id == msgId && !v.isEditing
    ensures EditedMarkerShown(v, Window.EditIn(ms, msgId, text, now)[i])
  {
  }

  /** A draft whose trim is the stored text makes no request. */
  lemma UnchangedTrimmedDraftNoRequest(v: View, m: Message)
    requires Text.Trim(v.draft) == m.text
    ensures HandleEdit(v, m).request == NoRequest
  {
  }
}
