/** The Socket.IO hub: one handler per socket event, each run to completion
    as a single step over the shared state (the `users` table and the
    `messages` history). A step takes the state, the id of the connection
    whose handler runs, the command and the clock readings the handler takes,
    and yields the new state with the events emitted, in order, each tagged
    with its audience. */
module Hub {
  import opened Wrappers
  import opened ChatTypes
  import opened Protocol
  import opened Registry
  import opened History
  import Seqs
  import JsText

  /** The clock readings a handler may take: `Date.now()` for a message id,
      `new Date()` for a message timestamp or a last-seen date. */
  datatype Clock = Clock(nowMillis: nat, date: int)

  datatype State = State(users: Users, messages: seq<Message>)

  /** A handler's effect: the state afterwards and the events emitted, in order. */
  datatype Outcome = Outcome(state: State, events: seq<Event>)

  /** The state when the server starts. */
  const Initial: State := State([], [])

  /** The error text sent with `username_taken`. */
  const TakenReason: string := "This username is already in use"

  /** Some online entry holds exactly this name (case and whitespace included). */
  predicate NameTaken(us: Users, name: string) {
    exists i :: 0 <= i < |us| && us[i].username == name && us[i].isOnline
  }

  /** No two entries share a username. */
  predicate NamesDistinct(us: Users) {
    forall i, j :: 0 <= i < j < |us| ==> us[i].username != us[j].username
  }

  /** Every entry is online and has never been given a last-seen date:
      entries are created online and deleted on disconnect. */
  predicate AllOnline(us: Users) {
    forall i :: 0 <= i < |us| ==> us[i].isOnline && us[i].lastSeen.None?
  }

  /** The invariant every reachable hub state satisfies. */
  predicate Valid(s: State) {
    && KeysDistinct(s.users)
    && NamesDistinct(s.users)
    && AllOnline(s.users)
    && |s.messages| <= MaxMessages
  }

  /** The entry a successful join stores for connection `conn`. */
  function JoinedUser(conn: string, name: string): User {
    User(conn, name, true, None)
  }

  /** `user_join`. */
  function OnJoin(s: State, conn: string, name: string): (o: Outcome)
    ensures NameTaken(s.users, name) ==>
      o.state == s && o.events == [Event(Requester, UsernameTaken(TakenReason))]
    ensures !NameTaken(s.users, name) ==>
      && o.state.messages == s.messages
      && Get(o.state.users, conn) == Some(JoinedUser(conn, name))
      && (forall id :: id != conn ==> Get(o.state.users, id) == Get(s.users, id))
      && o.events == [
           Event(Others, UserJoined(JoinedUser(conn, name))),
           Event(Requester, UsersList(o.state.users)),
           Event(Requester, MessagesHistory(s.messages)),
           Event(Everyone, UsersUpdate(o.state.users))]
    ensures !NameTaken(s.users, name) && !HasKey(s.users, conn) ==>
      o.state.users == s.users + [JoinedUser(conn, name)]
    ensures !NameTaken(s.users, name) && HasKey(s.users, conn) ==>
      && |o.state.users| == |s.users|
      && (forall i :: 0 <= i < |s.users| && s.users[i].id != conn ==> o.state.users[i] == s.users[i])
    ensures KeysDistinct(s.users) ==> KeysDistinct(o.state.users)
  {
    if NameTaken(s.users, name) then
      Outcome(s, [Event(Requester, UsernameTaken(TakenReason))])
    else
      var user := JoinedUser(conn, name);
      var users := Set(s.users, user);
      Outcome(State(users, s.messages), [
        Event(Others, UserJoined(user)),
        Event(Requester, UsersList(users)),
        Event(Requester, MessagesHistory(s.messages)),
        Event(Everyone, UsersUpdate(users))])
  }

  /** The message the server builds from a client's payload: every client
      field is kept except `id` and `timestamp`, which the clock supplies. */
  function Stamp(data: ClientMessage, clock: Clock): (m: Message)
    ensures m.id == JsText.DecimalString(clock.nowMillis) && m.timestamp == clock.date
    ensures m.userId == data.userId && m.username == data.username && m.content == data.content
    ensures m.kind == data.kind && m.fileInfo == data.fileInfo
  {
    Message(JsText.DecimalString(clock.nowMillis), data.userId, data.username, data.content,
            clock.date, data.kind, data.fileInfo)
  }

  /** Whatever `id` and `timestamp` a client puts in its payload, the stored
      message is the same. */
  lemma StampIgnoresClientIdentity(a: ClientMessage, b: ClientMessage, clock: Clock)
    requires a.(id := None, timestamp := None) == b.(id := None, timestamp := None)
    ensures Stamp(a, clock) == Stamp(b, clock)
  {
  }

  /** Messages stamped in different milliseconds have different ids. */
  lemma StampIdsDistinct(a: ClientMessage, b: ClientMessage, c1: Clock, c2: Clock)
    requires c1.nowMillis != c2.nowMillis
    ensures Stamp(a, c1).id != Stamp(b, c2).id
  {
    JsText.DecimalRoundTrip(c1.nowMillis);
    JsText.DecimalRoundTrip(c2.nowMillis);
  }

  /** `send_message`: nothing checks that the sender has joined. */
  function OnSendMessage(s: State, data: ClientMessage, clock: Clock): (o: Outcome)
    ensures o.state.users == s.users
    ensures o.state.messages == Push(s.messages, Stamp(data, clock))
    ensures o.events == [Event(Everyone, NewMessage(Stamp(data, clock)))]
  {
    var m := Stamp(data, clock);
    Outcome(State(s.users, Push(s.messages, m)), [Event(Everyone, NewMessage(m))])
  }

  /** `typing_start` and `typing_stop`: relayed to every other connection,
      with no state kept. */
  function OnTyping(s: State, name: string, start: bool): (o: Outcome)
    ensures o.state == s
    ensures |o.events| == 1 && o.events[0].audience == Others
    ensures o.events[0].payload == if start then UserTyping(name) else UserStopTyping(name)
  {
    Outcome(s, [Event(Others, if start then UserTyping(name) else UserStopTyping(name))])
  }

  /** `disconnect`: a known connection is marked offline with a last-seen
      date, announced to the others, removed, and the roster re-sent to all.
      An unknown connection is ignored. */
  function OnDisconnect(s: State, conn: string, clock: Clock): (o: Outcome)
    ensures !HasKey(s.users, conn) ==> o == Outcome(s, [])
    ensures HasKey(s.users, conn) ==>
      && o.state.messages == s.messages
      && Get(o.state.users, conn) == None
      && (forall id :: id != conn ==> Get(o.state.users, id) == Get(s.users, id))
      && Seqs.IsSubseq(o.state.users, s.users)
      && o.events == [
           Event(Others, UserLeft(Get(s.users, conn).value.(isOnline := false, lastSeen := Some(clock.date)))),
           Event(Everyone, UsersUpdate(o.state.users))]
  {
    match Get(s.users, conn)
    case None => Outcome(s, [])
    case Some(user) =>
      var left := user.(isOnline := false, lastSeen := Some(clock.date));
      var users := Delete(s.users, conn);
      Outcome(State(users, s.messages), [
        Event(Others, UserLeft(left)),
        Event(Everyone, UsersUpdate(users))])
  }

  /** Runs the handler for `cmd` on connection `conn`. */
  function Step(s: State, conn: string, cmd: Command, clock: Clock): Outcome {
    match cmd
    case Join(name) => OnJoin(s, conn, name)
    case SendMessage(data) => OnSendMessage(s, data, clock)
    case TypingStart(name) => OnTyping(s, name, true)
    case TypingStop(name) => OnTyping(s, name, false)
    case Disconnect => OnDisconnect(s, conn, clock)
  }

  /** A successful join keeps usernames pairwise distinct and every entry online,
      including when the connection re-joins and its own entry is overwritten. */
  lemma {:induction false} JoinPreservesValid(s: State, conn: string, name: string)
    requires Valid(s)
    ensures Valid(OnJoin(s, conn, name).state)
  {
  }

  /** Removing an entry keeps the remaining entries distinct and online. */
  lemma DisconnectPreservesValid(s: State, conn: string, clock: Clock)
    requires Valid(s)
    ensures Valid(OnDisconnect(s, conn, clock).state)
  {
    var r := OnDisconnect(s, conn, clock).state.users;
    forall i | 0 <= i < |r| ensures r[i].isOnline && r[i].lastSeen.None? {
      assert r[i] in r;
    }
    forall i, j | 0 <= i < j < |r| ensures r[i].username != r[j].username {
      assert r[i] in r && r[j] in r;
      assert r[i].id != r[j].id;
      var a :| 0 <= a < |s.users| && s.users[a] == r[i];
      var b :| 0 <= b < |s.users| && s.users[b] == r[j];
      assert a != b;
    }
  }

  /** Every handler preserves the hub invariant: unique ids, unique names,
      all entries online, history within its bound. */
  lemma StepPreservesValid(s: State, conn: string, cmd: Command, clock: Clock)
    requires Valid(s)
    ensures Valid(Step(s, conn, cmd, clock).state)
  {
    match cmd
    case Join(name) => JoinPreservesValid(s, conn, name);
    case Disconnect => DisconnectPreservesValid(s, conn, clock);
    case _ =>
  }

  /** A rejected join answers only the requester and changes nothing. */
  lemma JoinTakenRejected(s: State, conn: string, name: string)
    requires NameTaken(s.users, name)
    ensures OnJoin(s, conn, name).state == s
    ensures forall e :: e in OnJoin(s, conn, name).events ==> e.audience == Requester && e.payload.UsernameTaken?
  {
  }

  /** After a disconnect the connection is gone, so a second disconnect
      emits nothing and changes nothing. */
  lemma DisconnectTwiceIsNoOp(s: State, conn: string, c1: Clock, c2: Clock)
    ensures var o1 := OnDisconnect(s, conn, c1);
            OnDisconnect(o1.state, conn, c2) == Outcome(o1.state, [])
  {
  }

  /** A connection that joins again under a free name overwrites its own
      entry where it stands: the roster keeps its length and order. */
  lemma RejoinReplacesOwnEntry(s: State, conn: string, name: string)
    requires Valid(s) && HasKey(s.users, conn) && !NameTaken(s.users, name)
    ensures var users := OnJoin(s, conn, name).state.users;
            |users| == |s.users|
            && (forall i :: 0 <= i < |s.users| && s.users[i].id != conn ==> users[i] == s.users[i])
            && Get(users, conn) == Some(JoinedUser(conn, name))
  {
  }

  /** `send_message` is accepted from any connection, joined or not. */
  lemma SendAcceptsAnyConnection(s: State, conn: string, data: ClientMessage, clock: Clock)
    requires !HasKey(s.users, conn)
    ensures Step(s, conn, SendMessage(data), clock).state.messages == Push(s.messages, Stamp(data, clock))
    ensures Step(s, conn, SendMessage(data), clock).events == [Event(Everyone, NewMessage(Stamp(data, clock)))]
  {
  }

  /** Connection A joins as "alice", then B asks for "alice": B alone is told
      the name is taken, and the roster still holds A's entry only. */
  lemma SecondAliceRejected(a: string, b: string)
    requires a != b
    ensures var o1 := Step(Initial, a, Join("alice"), Clock(0, 0));
            var o2 := Step(o1.state, b, Join("alice"), Clock(0, 0));
            && o2.state == o1.state
            && o2.events == [Event(Requester, UsernameTaken(TakenReason))]
            && o2.state.users == [JoinedUser(a, "alice")]
  {
  }

  /** One input to the hub: which connection's handler runs, for which
      command, and what the clock reads meanwhile. */
  datatype Input = Input(conn: string, cmd: Command, clock: Clock)

  /** Runs the handlers one after another, as the event loop does; returns
      the final state and every event emitted, in order. */
  function Run(s: State, inputs: seq<Input>): Outcome
    decreases |inputs|
  {
    if |inputs| == 0 then Outcome(s, [])
    else
      var before := Run(s, inputs[..|inputs| - 1]);
      var last := inputs[|inputs| - 1];
      var o := Step(before.state, last.conn, last.cmd, last.clock);
      Outcome(o.state, before.events + o.events)
  }

  /** The messages the hub builds from the `send_message` inputs, in order. */
  function Sent(inputs: seq<Input>): seq<Message>
    decreases |inputs|
  {
    if |inputs| == 0 then []
    else
      var last := inputs[|inputs| - 1];
      Sent(inputs[..|inputs| - 1]) +
        (if last.cmd.SendMessage? then [Stamp(last.cmd.data, last.clock)] else [])
  }

  /** Every state reachable from a valid state is valid. */
  lemma {:induction false} RunPreservesValid(s: State, inputs: seq<Input>)
    requires Valid(s)
    ensures Valid(Run(s, inputs).state)
    decreases |inputs|
  {
    if |inputs| > 0 {
      var before := Run(s, inputs[..|inputs| - 1]);
      var last := inputs[|inputs| - 1];
      RunPreservesValid(s, inputs[..|inputs| - 1]);
      StepPreservesValid(before.state, last.conn, last.cmd, last.clock);
    }
  }

  /** Only `send_message` touches the history, and each one pushes its stamped message. */
  lemma {:induction false} RunHistoryIsPushAll(s: State, inputs: seq<Input>)
    ensures Run(s, inputs).state.messages == PushAll(s.messages, Sent(inputs))
    decreases |inputs|
  {
    if |inputs| > 0 {
      var init := inputs[..|inputs| - 1];
      var last := inputs[|inputs| - 1];
      RunHistoryIsPushAll(s, init);
      if last.cmd.SendMessage? {
        var m := Stamp(last.cmd.data, last.clock);
        assert Sent(inputs) == Sent(init) + [m];
        assert Sent(inputs)[..|Sent(inputs)| - 1] == Sent(init);
      } else {
        assert Sent(inputs) == Sent(init);
      }
    }
  }

  /** From server start, the history always holds the last `min(n, 1000)` of
      the `n` messages sent so far, oldest first. */
  lemma HistoryIsRecentWindow(inputs: seq<Input>)
    ensures Run(Initial, inputs).state.messages == Seqs.LastN(Sent(inputs), MaxMessages)
    ensures |Run(Initial, inputs).state.messages| <= MaxMessages
  {
    RunHistoryIsPushAll(Initial, inputs);
    PushAllIsWindow([], Sent(inputs));
    assert [] + Sent(inputs) == Sent(inputs);
  }
}
