/** `broadcast_update`: send the task to every live websocket connection and
    drop the connections whose send raised. A connection is opaque; whether
    its send succeeds is the predicate `delivered`. */
module Broadcast {

  /** Reference definition: the connections whose send went through, in
      their original order. */
  function Kept<C(!new)>(conns: seq<C>, delivered: C -> bool): (r: seq<C>)
    ensures |r| <= |conns|
    ensures forall x :: x in r <==> x in conns && delivered(x)
  {
    if conns == [] then []
    else if delivered(conns[0]) then [conns[0]] + Kept(conns[1..], delivered)
    else Kept(conns[1..], delivered)
  }

  /** The `disconnected` list: the connections whose send raised, in order
      (a connection listed twice is sent to, and fails, twice). */
  function Dropped<C>(conns: seq<C>, delivered: C -> bool): seq<C>
  {
    if conns == [] then []
    else if delivered(conns[0]) then Dropped(conns[1..], delivered)
    else [conns[0]] + Dropped(conns[1..], delivered)
  }

  /** Every dropped connection is one of the list's entries (counted with
      multiplicity) whose send failed. */
  lemma {:induction false} DroppedWithin<C>(conns: seq<C>, delivered: C -> bool)
    ensures multiset(Dropped(conns, delivered)) <= multiset(conns)
    ensures forall i :: 0 <= i < |Dropped(conns, delivered)| ==> !delivered(Dropped(conns, delivered)[i])
    decreases |conns|
  {
    if conns != [] {
      assert conns == [conns[0]] + conns[1..];
      DroppedWithin(conns[1..], delivered);
    }
  }

  /** The position of the first occurrence of `x` in `s`. */
  function FirstIndex<C(==)>(s: seq<C>, x: C): (i: nat)
    requires x in s
    ensures i < |s| && s[i] == x && x !in s[..i]
  {
    if s[0] == x then 0
    else
      var i := FirstIndex(s[1..], x) + 1;
      assert s[..i] == [s[0]] + s[1..][..i - 1];
      i
  }

  /** Python's `list.remove(x)`: delete the first occurrence of `x`, keeping
      the other entries in order. */
  function RemoveFirst<C(==,!new)>(s: seq<C>, x: C): (r: seq<C>)
    requires x in s
    ensures |r| == |s| - 1
    ensures forall k {:trigger r[k]} :: 0 <= k < |r| ==> r[k] == if k < FirstIndex(s, x) then s[k] else s[k + 1]
    decreases |s|
  {
    var t := s[1..];
    if s[0] == x then t
    else
      var rest := RemoveFirst(t, x);
      var r := [s[0]] + rest;
      var i := FirstIndex(t, x);
      assert FirstIndex(s, x) == i + 1;
      assert forall k :: 0 <= k < |r| ==> r[k] == if k < i + 1 then s[k] else s[k + 1] by {
        forall k | 0 < k < |r| ensures r[k] == if k < i + 1 then s[k] else s[k + 1] {
          assert r[k] == rest[k - 1];
          assert rest[k - 1] == if k - 1 < i then t[k - 1] else t[k];
          assert t[k - 1] == s[k] && t[k] == s[k + 1];
        }
      }
      r
  }

  /** Removing the first occurrence takes exactly one copy of `x` out of
      the list's multiset. */
  lemma RemoveFirstMultiset<C(!new)>(s: seq<C>, x: C)
    requires x in s
    ensures multiset(RemoveFirst(s, x)) == multiset(s) - multiset{x}
  {
    var i := FirstIndex(s, x);
    assert RemoveFirst(s, x) == s[..i] + s[i + 1..];
    assert s == s[..i] + [x] + s[i + 1..];
    assert multiset(s) == multiset(s[..i]) + multiset{x} + multiset(s[i + 1..]);
  }

  /** Removes each listed connection in turn, one first occurrence per
      listed entry. */
  function RemoveEach<C(==,!new)>(s: seq<C>, xs: seq<C>): seq<C>
    requires multiset(xs) <= multiset(s)
    decreases |xs|
  {
    if xs == [] then s
    else
      assert xs[0] in multiset(xs);
      assert multiset(xs) == multiset{xs[0]} + multiset(xs[1..]) by {
        assert xs == [xs[0]] + xs[1..];
      }
      RemoveFirstMultiset(s, xs[0]);
      RemoveEach(RemoveFirst(s, xs[0]), xs[1..])
  }

  /** Removing elements that are not the head leaves the head in front. */
  lemma {:induction false} RemoveEachKeepsHead<C(!new)>(h: C, t: seq<C>, xs: seq<C>)
    requires h !in xs && multiset(xs) <= multiset(t)
    ensures multiset(xs) <= multiset([h] + t)
    ensures RemoveEach([h] + t, xs) == [h] + RemoveEach(t, xs)
    decreases |xs|
  {
    if xs != [] {
      assert xs == [xs[0]] + xs[1..];
      assert xs[0] in multiset(xs);
      assert xs[0] in t;
      assert ([h] + t)[1..] == t;
      assert RemoveFirst([h] + t, xs[0]) == [h] + RemoveFirst(t, xs[0]);
      RemoveFirstMultiset(t, xs[0]);
      RemoveEachKeepsHead(h, RemoveFirst(t, xs[0]), xs[1..]);
    }
  }

  /** Removing, one first-occurrence at a time, exactly the connections whose
      send failed leaves the reference filter. */
  lemma {:induction false} RemoveDroppedIsKept<C(!new)>(conns: seq<C>, delivered: C -> bool)
    ensures multiset(Dropped(conns, delivered)) <= multiset(conns)
    ensures RemoveEach(conns, Dropped(conns, delivered)) == Kept(conns, delivered)
    decreases |conns|
  {
    if conns != [] {
      var h, t := conns[0], conns[1..];
      assert conns == [h] + t;
      RemoveDroppedIsKept(t, delivered);
      DroppedWithin(t, delivered);
      DroppedWithin(conns, delivered);
      if delivered(h) {
        RemoveEachKeepsHead(h, t, Dropped(t, delivered));
      }
    }
  }

  /** The send loop followed by the removal loop, as `broadcast_update`
      performs them; returns the connection list afterwards. */
  method BroadcastUpdate<C(==,!new)>(conns: seq<C>, delivered: C -> bool) returns (remaining: seq<C>)
    ensures remaining == Kept(conns, delivered)
    ensures forall x :: x in remaining <==> x in conns && delivered(x)
  {
    if |conns| == 0 {
      return conns;
    }
    var disconnected := SendAll(conns, delivered);
    DroppedWithin(conns, delivered);
    remaining := RemoveAll(conns, disconnected);
    RemoveDroppedIsKept(conns, delivered);
  }

  /** The send loop: tries every connection in order and collects, in
      order, those whose send failed. */
  method SendAll<C>(conns: seq<C>, delivered: C -> bool) returns (disconnected: seq<C>)
    ensures disconnected == Dropped(conns, delivered)
  {
    disconnected := [];
    var i := 0;
    while i < |conns|
      invariant 0 <= i <= |conns|
      invariant disconnected == Dropped(conns[..i], delivered)
    {
      DroppedSnoc(conns[..i], conns[i], delivered);
      assert conns[..i + 1] == conns[..i] + [conns[i]];
      if !delivered(conns[i]) {
        disconnected := disconnected + [conns[i]];
      }
      i := i + 1;
    }
    assert conns[..i] == conns;
  }

  /** The removal loop: takes each failed connection out of the connection
      list, one first occurrence per failed send. */
  method RemoveAll<C(==,!new)>(conns: seq<C>, disconnected: seq<C>) returns (remaining: seq<C>)
    requires multiset(disconnected) <= multiset(conns)
    ensures remaining == RemoveEach(conns, disconnected)
  {
    remaining := conns;
    var j := 0;
    while j < |disconnected|
      invariant 0 <= j <= |disconnected|
      invariant multiset(disconnected[j..]) <= multiset(remaining)
      invariant RemoveEach(remaining, disconnected[j..]) == RemoveEach(conns, disconnected)
    {
      assert disconnected[j..] == [disconnected[j]] + disconnected[j + 1..];
      assert disconnected[j] in multiset(disconnected[j..]);
      RemoveFirstMultiset(remaining, disconnected[j]);
      remaining := RemoveFirst(remaining, disconnected[j]);
      j := j + 1;
    }
  }

  lemma {:induction false} DroppedSnoc<C>(s: seq<C>, x: C, delivered: C -> bool)
    ensures Dropped(s + [x], delivered)
      == Dropped(s, delivered) + (if delivered(x) then [] else [x])
    decreases |s|
  {
    if s != [] {
      assert (s + [x])[1..] == s[1..] + [x];
      DroppedSnoc(s[1..], x, delivered);
    } else {
      assert s + [x] == [x];
    }
  }
}
