/**
 * Dropping records already seen: `[m for m in current if m not in last]`,
 * where `last` is the list the previous poll cycle scraped and membership
 * is structural equality of all four fields.
 */
module Dedup {
  import opened Scrape

  /** `idx` lists, in increasing order, positions of `ys` holding `xs`. */
  ghost predicate Embedding<T>(idx: seq<nat>, xs: seq<T>, ys: seq<T>) {
    |idx| == |xs| &&
    (forall k :: 0 <= k < |idx| ==> idx[k] < |ys| && xs[k] == ys[idx[k]]) &&
    (forall k, l :: 0 <= k < l < |idx| ==> idx[k] < idx[l])
  }

  /** `xs` is `ys` with some elements left out, the rest in their order. */
  ghost predicate IsSubsequence<T>(xs: seq<T>, ys: seq<T>) {
    exists idx :: Embedding(idx, xs, ys)
  }

  /**
   * The new messages of a cycle: the records of `current` equal to no
   * record of `last`, every copy of each, in the order of `current`.
   */
  function NewMessages(current: seq<Record>, last: seq<Record>): (unseen: seq<Record>)
    ensures forall m :: m in unseen <==> m in current && m !in last
    ensures forall m :: multiset(unseen)[m] == if m in last then 0 else multiset(current)[m]
  {
    if current == [] then []
    else
      assert current == [current[0]] + current[1..];
      (if current[0] in last then [] else [current[0]]) + NewMessages(current[1..], last)
  }

  /** Every position moved one place to the right. */
  function Shift(idx: seq<nat>): (r: seq<nat>)
    ensures |r| == |idx| && forall k :: 0 <= k < |idx| ==> r[k] == idx[k] + 1
  {
    if idx == [] then [] else [idx[0] + 1] + Shift(idx[1..])
  }

  /** Putting one element in front of a list keeps each subsequence one, with or without that element. */
  lemma SubsequenceCons<T>(y: T, xs: seq<T>, ys: seq<T>, keep: bool)
    requires IsSubsequence(xs, ys)
    ensures IsSubsequence(if keep then [y] + xs else xs, [y] + ys)
  {
    var idx :| Embedding(idx, xs, ys);
    var s := Shift(idx);
    assert forall k :: 0 <= k < |s| ==> ([y] + ys)[s[k]] == ys[idx[k]];
    if keep {
      var s0 := [0] + s;
      assert forall k :: 0 < k < |s0| ==> s0[k] == s[k - 1];
      assert Embedding(s0, [y] + xs, [y] + ys);
    } else {
      assert Embedding(s, xs, [y] + ys);
    }
  }

  /** The new messages keep the order of the current scrape. */
  lemma {:induction false} NewMessagesInOrder(current: seq<Record>, last: seq<Record>)
    ensures IsSubsequence(NewMessages(current, last), current)
    decreases |current|
  {
    if current == [] {
      assert Embedding([], NewMessages(current, last), current);
    } else {
      var y, rest := current[0], current[1..];
      assert current == [y] + rest;
      var tail := NewMessages(rest, last);
      var keep := y !in last;
      assert NewMessages(current, last) == if keep then [y] + tail else tail;
      NewMessagesInOrder(rest, last);
      SubsequenceCons(y, tail, rest, keep);
    }
  }

  /** Only membership in `last` matters: two lists with the same members give the same result. */
  lemma {:induction false} NewMessagesDependOnMembersOnly(current: seq<Record>, last1: seq<Record>, last2: seq<Record>)
    requires forall m :: m in current ==> (m in last1 <==> m in last2)
    ensures NewMessages(current, last1) == NewMessages(current, last2)
    decreases |current|
  {
    if current != [] {
      assert current[0] in current;
      forall m | m in current[1..] ensures m in current { }
      NewMessagesDependOnMembersOnly(current[1..], last1, last2);
    }
  }

  /** A page scraped twice in a row yields nothing new the second time. */
  lemma NothingNewTwice(current: seq<Record>)
    ensures NewMessages(current, current) == []
  {
  }

  /** With nothing remembered, every record is new and the list comes back as it was. */
  lemma {:induction false} EverythingNewAfterReset(current: seq<Record>)
    ensures NewMessages(current, []) == current
    decreases |current|
  {
    if current != [] {
      EverythingNewAfterReset(current[1..]);
      assert [current[0]] + current[1..] == current;
    }
  }
}
