/** The server's message history: an array that keeps at most the 1000 most
    recent messages, oldest first. */
module History {
  import opened ChatTypes
  import Seqs

  /** The history bound checked after every push (`messages.length > 1000`). */
  const MaxMessages: nat := 1000

  /** `messages.push(m)` followed by one `messages.shift()` when the array
      has grown past the bound. */
  function Push(h: seq<Message>, m: Message): (r: seq<Message>)
    ensures |h| <= MaxMessages ==> |r| <= MaxMessages
    ensures |h| < MaxMessages ==> r == h + [m]
    ensures |h| >= MaxMessages ==> r == h[1..] + [m]
  {
    var pushed := h + [m];
    if |pushed| > MaxMessages then
      assert pushed[1..] == h[1..] + [m];
      pushed[1..]
    else pushed
  }

  /** Pushing onto the retained window of a log retains the window of the
      extended log: the history is always the most recent messages. */
  lemma PushKeepsWindow(log: seq<Message>, m: Message)
    ensures Push(Seqs.LastN(log, MaxMessages), m) == Seqs.LastN(log + [m], MaxMessages)
  {
  }

  /** The history after pushing every message of `sent`, in order, onto `h`. */
  function PushAll(h: seq<Message>, sent: seq<Message>): seq<Message>
    decreases |sent|
  {
    if |sent| == 0 then h
    else Push(PushAll(h, sent[..|sent| - 1]), sent[|sent| - 1])
  }

  /** Starting from a history within the bound, the history after any number
      of sends is the last `min(n, 1000)` messages of everything, oldest first. */
  lemma {:induction false} PushAllIsWindow(h: seq<Message>, sent: seq<Message>)
    requires |h| <= MaxMessages
    ensures PushAll(h, sent) == Seqs.LastN(h + sent, MaxMessages)
    decreases |sent|
  {
    if |sent| == 0 {
      assert h + sent == h;
    } else {
      var init := sent[..|sent| - 1];
      var m := sent[|sent| - 1];
      PushAllIsWindow(h, init);
      var w := PushAll(h, init);
      assert w == Seqs.LastN(h + init, MaxMessages);
      PushKeepsWindow(h + init, m);
      assert (h + init) + [m] == h + sent;
    }
  }
}
