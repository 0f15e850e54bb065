/** Display helpers shared by the sidebar and the chat window: a chat's title and the
    preview line under it. */
module Display {
  import opened Wrappers
  import opened Records
  import Seqs

  /** The test "this details entry has an email other than `email`". */
  function EmailOtherThan(email: string): ((Uid, Detail)) -> bool {
    (e: (Uid, Detail)) => e.1.email != email
  }

  /** Title of a chat for the signed-in user `me`: a group shows its name (a missing name
      renders as ""); any other chat shows the display name of the first participant
      entry whose email is not `me`'s, or "Unknown User" when there is none or its name
      is empty. */
  function ChatTitle(c: Chat, me: Profile): (r: string)
    ensures c.kind == Group ==> r == c.name.GetOr("")
    ensures c.kind != Group && (forall i :: 0 <= i < |c.details| ==> c.details[i].1.email == me.email)
            ==> r == "Unknown User"
    ensures c.kind != Group ==>
              forall i :: 0 <= i < |c.details| && c.details[i].1.email != me.email
                          && (forall j :: 0 <= j < i ==> c.details[j].1.email == me.email)
                ==> r == (if c.details[i].1.displayName != "" then c.details[i].1.displayName else "Unknown User")
  {
    if c.kind == Group then c.name.GetOr("")
    else
      match Seqs.FirstIndex(c.details, EmailOtherThan(me.email))
      case None => "Unknown User"
      case Some(i) =>
        var name := c.details[i].1.displayName;
        if name != "" then name else "Unknown User"
  }

  /** The preview line of a chat in the sidebar: its last message, or a placeholder when
      that is empty or missing. */
  function ChatPreview(c: Chat): (r: string)
    ensures r != ""
    ensures c.lastMessage != "" ==> r == c.lastMessage
    ensures c.lastMessage == "" ==> r == "No messages yet"
  {
    if c.lastMessage != "" then c.lastMessage else "No messages yet"
  }
}
