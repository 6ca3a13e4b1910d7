/** The listener list of the GPS facade: `addListener` appends, `removeListener`
    removes the first equal entry, and every event goes to every registered listener
    in registration order. */
module Listeners {

  /** The position of the first occurrence of `l`, or |ls| when there is none. */
  function FirstIndex<L(==)>(ls: seq<L>, l: L): (i: nat)
    ensures i <= |ls|
    ensures i < |ls| ==> ls[i] == l
    ensures l !in ls[..i]
    ensures i == |ls| <==> l !in ls
  {
    if ls == [] then 0
    else if ls[0] == l then 0
    else
      var j := FirstIndex(ls[1..], l);
      assert ls[..j + 1] == [ls[0]] + ls[1..][..j];
      j + 1
  }

  /** `addListener`: the list grows by one, at the end. */
  function Add<L>(ls: seq<L>, l: L): (r: seq<L>)
    ensures |r| == |ls| + 1 && r[..|ls|] == ls && r[|ls|] == l
  {
    ls + [l]
  }

  /** `removeListener`, which is List.remove(Object): the first equal entry goes, the
      others keep their order, and a listener that was never added changes nothing. */
  function Remove<L(==)>(ls: seq<L>, l: L): (r: seq<L>)
    ensures l !in ls ==> r == ls
    ensures l in ls ==> |r| == |ls| - 1
    ensures multiset(r) == multiset(ls) - multiset{l}
  {
    var i := FirstIndex(ls, l);
    if i == |ls| then ls
    else
      assert ls == ls[..i] + [l] + ls[i + 1..];
      ls[..i] + ls[i + 1..]
  }

  /** Removing a listener right after adding it restores the list, when it was not
      already registered. */
  lemma RemoveAdd<L>(ls: seq<L>, l: L)
    requires l !in ls
    ensures Remove(Add(ls, l), l) == ls
  {
    assert FirstIndex(Add(ls, l), l) == |ls|;
    assert Add(ls, l)[..|ls|] == ls;
  }

  /** Removal takes the earliest registration: entries before it are kept in place and
      entries after it move up by one. */
  lemma RemoveKeepsOrder<L>(ls: seq<L>, l: L, j: nat)
    requires l in ls
    requires j < |ls| - 1
    ensures var i := FirstIndex(ls, l);
      Remove(ls, l)[j] == if j < i then ls[j] else ls[j + 1]
  {
  }

  /** A listener added twice is still registered after one removal. */
  lemma RemoveOneOfTwo<L>(ls: seq<L>, l: L)
    ensures l in Remove(Add(Add(ls, l), l), l)
  {
    var r := Remove(Add(Add(ls, l), l), l);
    assert multiset(Add(Add(ls, l), l))[l] >= 2;
    assert multiset(r)[l] >= 1;
  }

  /** One `onEvent` call. */
  datatype Delivery<L, E> = Delivery(listener: L, event: E)

  /** `notifyListeners`: calls every registered listener once with the event, in
      registration order. */
  method NotifyAll<L, E>(ls: seq<L>, e: E) returns (log: seq<Delivery<L, E>>)
    ensures |log| == |ls|
    ensures forall i :: 0 <= i < |ls| ==> log[i] == Delivery(ls[i], e)
  {
    log := [];
    var i := 0;
    while i < |ls|
      invariant 0 <= i <= |ls|
      invariant |log| == i
      invariant forall k :: 0 <= k < i ==> log[k] == Delivery(ls[k], e)
    {
      log := log + [Delivery(ls[i], e)];
      i := i + 1;
    }
  }

  /** The deliveries of a sequence of events: each event to every listener, events in
      order. */
  function Deliveries<L, E>(ls: seq<L>, es: seq<E>): (log: seq<Delivery<L, E>>)
    ensures es == [] ==> log == []
    ensures ls == [] ==> log == []
  {
    if es == [] then [] else Broadcast(ls, es[0]) + Deliveries(ls, es[1..])
  }

  function Broadcast<L, E>(ls: seq<L>, e: E): (log: seq<Delivery<L, E>>)
    ensures |log| == |ls|
    ensures forall i :: 0 <= i < |ls| ==> log[i] == Delivery(ls[i], e)
  {
    if ls == [] then [] else [Delivery(ls[0], e)] + Broadcast(ls[1..], e)
  }

  /** The deliveries of two batches of events, one after the other, are those of both
      batches at once. */
  lemma {:induction false} DeliveriesAppend<L, E>(ls: seq<L>, es: seq<E>, fs: seq<E>)
    ensures Deliveries(ls, es + fs) == Deliveries(ls, es) + Deliveries(ls, fs)
    decreases |es|
  {
    if es != [] {
      DeliveriesAppend(ls, es[1..], fs);
      assert (es + fs)[1..] == es[1..] + fs;
    } else {
      assert es + fs == fs;
    }
  }
}
