/** The /edit, /delete and /react commands: what is checked, what is changed, what is announced. */
module Commands {
  import opened Options
  import opened Protocol
  import opened StoreModel
  import opened StoreRuns
  import StoreLaws
  import Storage

  /** A command either refuses, or hands one event to the broadcast loop. */
  datatype Reply = NotFound | NotAllowed | Announce(event: Message)

  function EditEvent(id: string, sender: string, content: string, channel: string, now: int): Message {
    BLANK.(kind := EditMessage, id := id, sender := sender, content := content, channel := channel, edited := true,
        timestamp := now)
  }

  function DeleteEvent(id: string, sender: string, channel: string, now: int): Message {
    BLANK.(kind := DeleteMessage, id := id, sender := sender, content := "Message deleted", channel := channel,
        timestamp := now)
  }

  function ReactionEvent(id: string, sender: string, emoji: string, now: int): Message {
    BLANK.(kind := Reaction, id := id, sender := sender, content := emoji, timestamp := now,
           metadata := map["emoji" := emoji, "target_id" := id])
  }

  /** The lookup and the ownership check of /edit: the message as it is now, or the refusal. */
  method CheckEdit(store: Storage.Storage, username: string, id: string)
      returns (refusal: Option<Reply>, existing: Option<Message>)
    ensures var i := GetMessageByID(store.View(), id);
            && (refusal == Some(NotFound) <==> i < 0)
            && (refusal == Some(NotAllowed) <==> i >= 0 && store.allMsgs[i].sender != username)
            && (refusal.None? ==> i >= 0 && existing == Some(store.allMsgs[i]) && store.allMsgs[i].sender == username)
            && (refusal.Some? ==> refusal.value.NotFound? || refusal.value.NotAllowed?)
  {
    existing := store.GetMessageByID(id);
    refusal := None;
    if existing.None? {
      refusal := Some(NotFound);
    } else if existing.value.sender != username {
      refusal := Some(NotAllowed);
    }
  }

  /** The change, in whatever state it finds the store by then: it is announced even if it found nothing. */
  method FinishEdit(store: Storage.Storage, username: string, id: string, newText: string, existing: Message, now: int)
    returns (reply: Reply)
    modifies store
    ensures store.View() == Update(old(store.View()), id, newText).0
    ensures reply == Announce(EditEvent(id, username, newText, existing.channel, now))
    ensures var e := reply.event;
            && e.kind == EditMessage && e.id == id && e.sender == username && e.content == newText && e.edited
            && e.channel == existing.channel && e.timestamp == now && e.metadata == map[]
  {
    var found := store.UpdateMessage(id, newText);
    reply := Announce(EditEvent(id, username, newText, existing.channel, now));
  }

  /** Without anything in between: only the sender edits the message, and nobody else's changes, in any list. */
  method Edit(store: Storage.Storage, username: string, id: string, newText: string, now: int, ghost births: Births)
    returns (reply: Reply)
    requires Inv(store.View(), births)
    modifies store
    ensures Inv(store.View(), births)
    ensures var i := GetMessageByID(old(store.View()), id);
            && (reply.NotFound? <==> i < 0)
            && (reply.NotAllowed? <==> i >= 0 && old(store.allMsgs)[i].sender != username)
            && (reply.Announce? ==>
                  && reply.event == EditEvent(id, username, newText, old(store.allMsgs)[i].channel, now)
                  && store.allMsgs == old(store.allMsgs)[i := Edited(old(store.allMsgs)[i], newText)])
    ensures !reply.Announce? ==> store.View() == old(store.View())
    ensures StoreLaws.OnlyChanges(old(store.allMsgs), store.allMsgs, id, username)
    ensures store.messages.Keys == old(store.messages).Keys
    ensures forall ch | ch in store.messages ::
            StoreLaws.OnlyChanges(old(store.messages)[ch], store.messages[ch], id, username)
  {
    var refusal, existing := CheckEdit(store, username, id);
    if refusal.Some? {
      return refusal.value;
    }
    ghost var before := store.View();
    StoreLaws.UpdateHitsTheLookup(before, births, id, newText);
    UpdateKeeps(before, births, id, newText);
    assert existing.value in before.flat && births[id] == BirthOf(existing.value);
    StoreLaws.UpdateOnlyChanges(before, births, id, newText, username);
    reply := FinishEdit(store, username, id, newText, existing.value, now);
  }

  /** The lookup and the permission check of /delete: senders and admins may. */
  method CheckDelete(store: Storage.Storage, username: string, role: string, id: string)
    returns (refusal: Option<Reply>, existing: Option<Message>)
    ensures var i := GetMessageByID(store.View(), id);
            && (refusal == Some(NotFound) <==> i < 0)
            && (refusal == Some(NotAllowed) <==> i >= 0 && store.allMsgs[i].sender != username && role != "admin")
            && (refusal.None? ==> i >= 0 && existing == Some(store.allMsgs[i]))
            && (refusal.Some? ==> refusal.value.NotFound? || refusal.value.NotAllowed?)
  {
    existing := store.GetMessageByID(id);
    refusal := None;
    if existing.None? {
      refusal := Some(NotFound);
    } else if existing.value.sender != username {
      if role != "admin" {
        refusal := Some(NotAllowed);
      }
    }
  }

  /** The removal, in whatever state it finds the store by then: it is announced even if it found nothing. */
  method FinishDelete(store: Storage.Storage, username: string, id: string, existing: Message, now: int)
      returns (reply: Reply)
    modifies store
    ensures store.View() == StoreModel.Delete(old(store.View()), id).0
    ensures reply == Announce(DeleteEvent(id, username, existing.channel, now))
    ensures var e := reply.event;
            && e.kind == DeleteMessage && e.id == id && e.sender == username && e.content == "Message deleted"
            && e.channel == existing.channel && e.timestamp == now && !e.edited && e.metadata == map[]
  {
    var found := store.DeleteMessage(id);
    reply := Announce(DeleteEvent(id, username, existing.channel, now));
  }

  /** Without anything in between: exactly that message goes; the rest keep their order. */
  method Delete(store: Storage.Storage, username: string, role: string, id: string, now: int, ghost births: Births)
    returns (reply: Reply)
    requires Inv(store.View(), births)
    modifies store
    ensures Inv(store.View(), births)
    ensures var i := GetMessageByID(old(store.View()), id);
            && (reply.NotFound? <==> i < 0)
            && (reply.NotAllowed? <==> i >= 0 && old(store.allMsgs)[i].sender != username && role != "admin")
            && (reply.Announce? ==>
                  && reply.event == DeleteEvent(id, username, old(store.allMsgs)[i].channel, now)
                  && store.allMsgs == old(store.allMsgs)[..i] + old(store.allMsgs)[i + 1..]
                  && GetMessageByID(store.View(), id) < 0)
    ensures !reply.Announce? ==> store.View() == old(store.View())
  {
    var refusal, existing := CheckDelete(store, username, role, id);
    if refusal.Some? {
      return refusal.value;
    }
    ghost var before := store.View();
    StoreLaws.DeleteRemovesTheLookup(before, births, id);
    DeleteKeeps(before, births, id);
    reply := FinishDelete(store, username, id, existing.value, now);
  }

  /** Anyone may react; afterwards the message lists the user, and no other message changed. */
  method React(store: Storage.Storage, username: string, id: string, emoji: string, now: int, ghost births: Births)
    returns (reply: Reply)
    requires Inv(store.View(), births)
    modifies store
    ensures Inv(store.View(), births)
    ensures var i := IndexOf(old(store.allMsgs), id);
            && (reply.NotFound? <==> i == |old(store.allMsgs)|)
            && (reply == NotFound || reply == Announce(ReactionEvent(id, username, emoji, now)))
            && (reply.Announce? ==>
                  var e := reply.event;
                  && e.kind == Reaction && e.id == id && e.sender == username && e.content == emoji
                  && e.channel == "" && e.timestamp == now && e.metadata == map["emoji" := emoji, "target_id" := id])
            && (reply.Announce? ==>
                  && |store.allMsgs| == |old(store.allMsgs)|
                  && username in Users(store.allMsgs[i], emoji)
                  && store.allMsgs == old(store.allMsgs)[i := Reacted(old(store.allMsgs)[i], emoji, username)])
  {
    ghost var before := store.View();
    ReactKeeps(before, births, id, emoji, username);
    var found := store.AddReaction(id, emoji, username);
    if found {
      reply := Announce(ReactionEvent(id, username, emoji, now));
    } else {
      reply := NotFound;
    }
  }
}
