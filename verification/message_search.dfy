/** The message search of the `useMessageSearch` hook: a case-insensitive
    substring filter over a message's content or author name. */
module MessageSearch {
  import opened ChatTypes
  import JsText
  import Seqs
  import Wrappers

  /** The lowercased content or the lowercased username contains the
      lowercased term. The term is not trimmed here. */
  function Matches(m: Message, term: string): (b: bool)
    ensures b <==>
      || (exists i :: JsText.OccursAt(JsText.Lower(m.content), JsText.Lower(term), i))
      || (exists i :: JsText.OccursAt(JsText.Lower(m.username), JsText.Lower(term), i))
    ensures |term| == 0 ==> b
  {
    assert JsText.OccursAt(JsText.Lower(m.content), JsText.Lower(term), 0) <== |term| == 0;
    || JsText.Includes(JsText.Lower(m.content), JsText.Lower(term))
    || JsText.Includes(JsText.Lower(m.username), JsText.Lower(term))
  }

  /** `filteredMessages`: a blank term shows every message; otherwise the
      matching messages, in their original order. */
  function FilteredMessages(ms: seq<Message>, term: string): (r: seq<Message>)
    ensures JsText.AllWhitespace(term) ==> r == ms
    ensures Seqs.IsSubseq(r, ms)
    ensures !JsText.AllWhitespace(term) ==> forall i :: 0 <= i < |r| ==> Matches(r[i], term)
    ensures !JsText.AllWhitespace(term) ==> forall i :: 0 <= i < |ms| && Matches(ms[i], term) ==> ms[i] in r
  {
    JsText.BlankIffAllWhitespace(term);
    Seqs.IsSubseqRefl(ms);
    if JsText.IsBlank(term) then ms else Seqs.Filter(ms, m => Matches(m, term))
  }

  /** `searchResultsCount`: the number of messages shown. */
  function SearchResultsCount(ms: seq<Message>, term: string): (n: nat)
    ensures n <= |ms|
    ensures JsText.AllWhitespace(term) ==> n == |ms|
    ensures n == |FilteredMessages(ms, term)|
  {
    Seqs.SubseqLength(FilteredMessages(ms, term), ms);
    |FilteredMessages(ms, term)|
  }

  /** Every copy of a matching message is shown and no copy of any other:
      two equal messages (the same author and text sent within one
      millisecond) are both kept or both dropped. */
  lemma FilteredMessagesCounts(ms: seq<Message>, term: string)
    ensures multiset(FilteredMessages(ms, term)) <= multiset(ms)
    ensures forall m :: (multiset(FilteredMessages(ms, term))[m] ==
                         if JsText.AllWhitespace(term) || Matches(m, term) then multiset(ms)[m] else 0)
  {
    JsText.BlankIffAllWhitespace(term);
    if !JsText.IsBlank(term) {
      Seqs.FilterMultiset(ms, m => Matches(m, term));
    }
  }

  /** Searching the search results again with the same term changes nothing. */
  lemma SearchIdempotent(ms: seq<Message>, term: string)
    ensures FilteredMessages(FilteredMessages(ms, term), term) == FilteredMessages(ms, term)
  {
    JsText.BlankIffAllWhitespace(term);
    if !JsText.IsBlank(term) {
      Seqs.FilterIdempotent(ms, m => Matches(m, term));
    }
  }

  /** Lowercasing neither creates nor removes whitespace. */
  lemma LowerKeepsWhitespace(s: string)
    ensures JsText.AllWhitespace(JsText.Lower(s)) <==> JsText.AllWhitespace(s)
  {
  }

  /** Terms that differ only in the case of ASCII letters give the same results. */
  lemma SearchIgnoresCase(ms: seq<Message>, t1: string, t2: string)
    requires JsText.Lower(t1) == JsText.Lower(t2)
    ensures FilteredMessages(ms, t1) == FilteredMessages(ms, t2)
  {
    LowerKeepsWhitespace(t1);
    LowerKeepsWhitespace(t2);
    JsText.BlankIffAllWhitespace(t1);
    JsText.BlankIffAllWhitespace(t2);
    if !JsText.IsBlank(t1) {
      Seqs.FilterCongruent(ms, m => Matches(m, t1), m => Matches(m, t2));
    }
  }

  /** Surrounding spaces in a term are searched for: " hi" does not find a
      message whose content is "hi", while "hi" does. */
  lemma TermIsNotTrimmed()
    ensures var m := Message("1", "u1", "bob", "hi", 0, Text, Wrappers.None);
            FilteredMessages([m], " hi") == [] && FilteredMessages([m], "hi") == [m]
  {
    var m := Message("1", "u1", "bob", "hi", 0, Text, Wrappers.None);
    var t := " hi";
    assert JsText.Lower(t) == t;
    assert JsText.Lower("hi") == "hi";
    assert JsText.Lower("bob") == "bob";
    assert !JsText.Includes("hi", t);
    assert "bob"[0] != t[0];
    assert !JsText.Includes("bob", t);
    assert JsText.OccursAt("hi", "hi", 0);
    assert !Matches(m, t) && Matches(m, "hi");
  }
}
