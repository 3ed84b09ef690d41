/** A client's local projection of the chat (the `useWebSocket` hook): the
    roster, the message list and the names currently typing, each updated by
    the server event that concerns it. */
module ClientView {
  import opened ChatTypes
  import opened Protocol
  import Seqs
  import Hub
  import Registry
  import opened Wrappers

  datatype View = View(users: seq<User>, messages: seq<Message>, typingUsers: seq<string>)

  /** The view before any event arrives. */
  const Empty: View := View([], [], [])

  /** `user_typing`: the name is added at the end unless already present. */
  function AddTyping(typing: seq<string>, name: string): (r: seq<string>)
    ensures name in r
    ensures name in typing ==> r == typing
    ensures name !in typing ==> |r| == |typing| + 1 && r[..|typing|] == typing && r[|typing|] == name
    ensures Seqs.NoDuplicates(typing) ==> Seqs.NoDuplicates(r)
  {
    if name in typing then typing else typing + [name]
  }

  /** `user_stop_typing`: every occurrence of the name is dropped, the rest
      keep their order. */
  function RemoveTyping(typing: seq<string>, name: string): (r: seq<string>)
    ensures name !in r
    ensures Seqs.IsSubseq(r, typing)
    ensures forall i :: 0 <= i < |typing| && typing[i] != name ==> typing[i] in r
    ensures Seqs.NoDuplicates(typing) ==> Seqs.NoDuplicates(r)
  {
    Seqs.Filter(typing, other => other != name)
  }

  /** Adding a name twice is adding it once. */
  lemma AddTypingIdempotent(typing: seq<string>, name: string)
    ensures AddTyping(AddTyping(typing, name), name) == AddTyping(typing, name)
  {
  }

  /** Removing a name absent from the list leaves the list as it was. */
  lemma RemoveAbsentIsIdentity(typing: seq<string>, name: string)
    requires name !in typing
    ensures RemoveTyping(typing, name) == typing
  {
    Seqs.FilterKeepsAll(typing, other => other != name);
  }

  /** A start followed by a stop for a name that was not typing restores the list. */
  lemma StartThenStopRestores(typing: seq<string>, name: string)
    requires name !in typing
    ensures RemoveTyping(AddTyping(typing, name), name) == typing
  {
    var p := (other: string) => other != name;
    Seqs.FilterAppend(typing, [name], p);
    RemoveAbsentIsIdentity(typing, name);
    assert Seqs.Filter([name], p) == [];
  }

  /** The state update for one server event. Events this hook does not listen
      to (`username_taken`, `user_joined`, `user_left`) leave the view as is. */
  function Apply(v: View, p: Payload): (r: View)
    ensures p.UsersList? || p.UsersUpdate? ==> r == v.(users := p.users)
    ensures p.MessagesHistory? ==> r == v.(messages := p.messages)
    ensures p.NewMessage? ==>
      && r.users == v.users && r.typingUsers == v.typingUsers
      && |r.messages| == |v.messages| + 1 && r.messages[..|v.messages|] == v.messages
      && r.messages[|v.messages|] == p.message
    ensures p.UserTyping? ==> r == v.(typingUsers := AddTyping(v.typingUsers, p.name))
    ensures p.UserStopTyping? ==> r == v.(typingUsers := RemoveTyping(v.typingUsers, p.name))
    ensures p.UsernameTaken? || p.UserJoined? || p.UserLeft? ==> r == v
  {
    match p
    case UsersList(us) => v.(users := us)
    case UsersUpdate(us) => v.(users := us)
    case MessagesHistory(ms) => v.(messages := ms)
    case NewMessage(m) => v.(messages := v.messages + [m])
    case UserTyping(name) => v.(typingUsers := AddTyping(v.typingUsers, name))
    case UserStopTyping(name) => v.(typingUsers := RemoveTyping(v.typingUsers, name))
    case _ => v
  }

  /** The view of a connection after the hub's events reach it, in
      emission order; `isRequester` tells whether this connection issued
      the command. Events addressed to others are not delivered. */
  function Deliver(v: View, events: seq<Event>, isRequester: bool): View
    decreases |events|
  {
    if |events| == 0 then v
    else
      Deliver(DeliverOne(v, events[0], isRequester), events[1..], isRequester)
  }

  /** Whatever events arrive, the typing list never holds a name twice. */
  lemma {:induction false} TypingStaysDuplicateFree(v: View, events: seq<Event>, isRequester: bool)
    requires Seqs.NoDuplicates(v.typingUsers)
    ensures Seqs.NoDuplicates(Deliver(v, events, isRequester).typingUsers)
    decreases |events|
  {
    if |events| > 0 {
      TypingStaysDuplicateFree(DeliverOne(v, events[0], isRequester), events[1..], isRequester);
    }
  }

  /** A client that starts from the hook's initial state never shows a
      name twice in its typing list, whatever events reach it. */
  lemma FreshClientTypingDuplicateFree(events: seq<Event>, isRequester: bool)
    ensures Seqs.NoDuplicates(Deliver(Empty, events, isRequester).typingUsers)
  {
    TypingStaysDuplicateFree(Empty, events, isRequester);
  }

  /** Delivering a four-event emission, one event at a time. */
  lemma Deliver4(v: View, es: seq<Event>, isRequester: bool)
    requires |es| == 4
    ensures Deliver(v, es, isRequester) ==
      DeliverOne(DeliverOne(DeliverOne(DeliverOne(v, es[0], isRequester), es[1], isRequester), es[2], isRequester), es[3], isRequester)
  {
    var v1 := DeliverOne(v, es[0], isRequester);
    var v2 := DeliverOne(v1, es[1], isRequester);
    var v3 := DeliverOne(v2, es[2], isRequester);
    var v4 := DeliverOne(v3, es[3], isRequester);
    assert es[1..][1..] == es[2..] && es[2..][1..] == es[3..] && es[3..][1..] == [];
    assert Deliver(v3, es[3..], isRequester) == Deliver(v4, [], isRequester) == v4;
    assert Deliver(v2, es[2..], isRequester) == Deliver(v3, es[3..], isRequester);
    assert Deliver(v1, es[1..], isRequester) == Deliver(v2, es[2..], isRequester);
  }

  /** Delivering a two-event emission, one event at a time. */
  lemma Deliver2(v: View, es: seq<Event>, isRequester: bool)
    requires |es| == 2
    ensures Deliver(v, es, isRequester) ==
      DeliverOne(DeliverOne(v, es[0], isRequester), es[1], isRequester)
  {
    var v1 := DeliverOne(v, es[0], isRequester);
    var v2 := DeliverOne(v1, es[1], isRequester);
    assert es[1..][1..] == [];
    assert Deliver(v1, es[1..], isRequester) == Deliver(v2, [], isRequester) == v2;
  }

  /** The effect of one event on a connection it may or may not reach. */
  function DeliverOne(v: View, e: Event, isRequester: bool): View {
    if Reaches(e, isRequester) then Apply(v, e.payload) else v
  }

  /** After a successful join, the joining client's roster and message list
      equal the hub's, whatever it showed before. */
  lemma JoinSyncsRequester(s: Hub.State, conn: string, name: string, v: View)
    requires !Hub.NameTaken(s.users, name)
    ensures var o := Hub.OnJoin(s, conn, name);
            var w := Deliver(v, o.events, true);
            w.users == o.state.users && w.messages == o.state.messages
  {
    var o := Hub.OnJoin(s, conn, name);
    Deliver4(v, o.events, true);
    var v1 := DeliverOne(v, o.events[0], true);
    assert v1 == v;
    var v2 := DeliverOne(v1, o.events[1], true);
    assert v2.users == o.state.users;
    var v3 := DeliverOne(v2, o.events[2], true);
    assert v3.users == o.state.users && v3.messages == o.state.messages;
  }

  /** After a successful join, every other client's roster equals the hub's. */
  lemma JoinSyncsOthers(s: Hub.State, conn: string, name: string, v: View)
    requires !Hub.NameTaken(s.users, name)
    ensures var o := Hub.OnJoin(s, conn, name);
            Deliver(v, o.events, false).users == o.state.users
  {
    var o := Hub.OnJoin(s, conn, name);
    Deliver4(v, o.events, false);
    var v3 := DeliverOne(DeliverOne(DeliverOne(v, o.events[0], false), o.events[1], false), o.events[2], false);
    assert DeliverOne(v3, o.events[3], false).users == o.state.users;
  }

  /** After a disconnect, every remaining client's roster equals the hub's,
      which no longer lists the departed connection. A disconnect of an
      unknown connection reaches nobody. */
  lemma DisconnectSyncsOthers(s: Hub.State, conn: string, clock: Hub.Clock, v: View)
    ensures var o := Hub.OnDisconnect(s, conn, clock);
            var w := Deliver(v, o.events, false);
            (Registry.HasKey(s.users, conn) ==> w.users == o.state.users && !Registry.HasKey(w.users, conn))
            && (!Registry.HasKey(s.users, conn) ==> w == v)
  {
    var o := Hub.OnDisconnect(s, conn, clock);
    if Registry.HasKey(s.users, conn) {
      Deliver2(v, o.events, false);
    }
  }

  /** Every connection, the sender included, appends a sent message to its list. */
  lemma SendReachesEveryone(s: Hub.State, data: ClientMessage, clock: Hub.Clock, v: View, isSender: bool)
    ensures var o := Hub.OnSendMessage(s, data, clock);
            Deliver(v, o.events, isSender).messages == v.messages + [Hub.Stamp(data, clock)]
  {
    var o := Hub.OnSendMessage(s, data, clock);
    assert o.events[1..] == [];
  }
}
