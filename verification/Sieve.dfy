/**
The SIEVE queue of one shard of the read cache: entries in insertion order, a hand that
sweeps from the head, clears the visited marks it meets and evicts unmarked entries.
*/
module Sieve {
  import opened Common

  type Id = nat

  /** Iterations an eviction may take. */
  const GUARD: nat := 4096

  /** Unlink one entry from a list. */
  function Remove(q: seq<Id>, id: Id): seq<Id> {
    if q == [] then [] else if q[0] == id then q[1..] else [q[0]] + Remove(q[1..], id)
  }

  lemma {:induction false} RemoveMembers(q: seq<Id>, id: Id)
    requires NoDup(q)
    ensures NoDup(Remove(q, id))
    ensures forall x :: x in Remove(q, id) <==> x in q && x != id
    ensures id in q ==> |Remove(q, id)| == |q| - 1
    ensures id !in q ==> Remove(q, id) == q
  {
    if q != [] {
      assert q == [q[0]] + q[1..];
      if q[0] == id {
        assert id !in q[1..];
      } else {
        RemoveMembers(q[1..], id);
        assert q[0] !in q[1..] && q[0] !in Remove(q[1..], id);
      }
    }
  }

  lemma {:induction false} RemoveSplit(a: seq<Id>, id: Id, b: seq<Id>)
    requires id !in a
    ensures Remove(a + [id] + b, id) == a + b
  {
    var q := a + [id] + b;
    if a == [] {
      assert q[1..] == b;
    } else {
      assert q[1..] == a[1..] + [id] + b;
      RemoveSplit(a[1..], id, b);
      assert [a[0]] + (a[1..] + b) == a + b;
    }
  }

  /** The entry behind id in the queue, if any. */
  function Next(q: seq<Id>, id: Id): Option<Id> {
    if |q| < 2 then None else if q[0] == id then Some(q[1]) else Next(q[1..], id)
  }

  lemma {:induction false} NextSplit(a: seq<Id>, id: Id, b: seq<Id>)
    requires id !in a
    ensures Next(a + [id] + b, id) == if b == [] then None else Some(b[0])
  {
    var q := a + [id] + b;
    if a != [] {
      assert q[1..] == a[1..] + [id] + b;
      NextSplit(a[1..], id, b);
    }
  }

  lemma {:induction false} NextMember(q: seq<Id>, id: Id)
    requires NoDup(q)
    ensures Next(q, id).Some? ==> Next(q, id).value in q && Next(q, id).value != id
  {
    if |q| >= 2 && q[0] != id {
      NextMember(q[1..], id);
    }
  }

  /** Marked entries in a stretch of the queue. */
  function Marked(q: seq<Id>, vis: set<Id>): (n: nat)
    ensures n <= |q|
  {
    if q == [] then 0 else (if q[0] in vis then 1 else 0) + Marked(q[1..], vis)
  }

  lemma {:induction false} MarkedAppend(a: seq<Id>, b: seq<Id>, vis: set<Id>)
    ensures Marked(a + b, vis) == Marked(a, vis) + Marked(b, vis)
  {
    if a == [] {
      assert a + b == b;
    } else {
      assert (a + b)[1..] == a[1..] + b;
      MarkedAppend(a[1..], b, vis);
    }
  }

  lemma {:induction false} MarkedUnmark(q: seq<Id>, vis: set<Id>, id: Id)
    requires id !in q
    ensures Marked(q, vis - {id}) == Marked(q, vis)
  {
    if q != [] {
      MarkedUnmark(q[1..], vis, id);
    }
  }

  /**
  How many more iterations it takes to evict everything but the last entry, when the hand
  stands between `pre` and `post`: one for each eviction, one for each mark to clear, one for
  each time the hand has to pass the protected last entry.
  */
  function Effort(pre: seq<Id>, post: seq<Id>, vis: set<Id>): nat
    requires post != []
  {
    |pre| + |post| - 1 + Marked(pre, vis) + Marked(post, vis)
    + if pre == [] then (if Marked(post, vis) > 0 then 1 else 0) else 1 + (if Marked(pre, vis) > 0 then 1 else 0)
  }

  /** Every iteration of the sweep lowers the effort by exactly one. */
  lemma ClearMark(pre: seq<Id>, post: seq<Id>, vis: set<Id>)
    requires |post| >= 2 && post[0] in vis && post[0] !in pre && post[0] !in post[1..]
    ensures Effort(pre + [post[0]], post[1..], vis - {post[0]}) == Effort(pre, post, vis) - 1
  {
    var e := post[0];
    MarkedUnmark(pre, vis, e);
    MarkedUnmark(post[1..], vis, e);
    MarkedAppend(pre, [e], vis - {e});
    assert Marked([e], vis - {e}) == 0 by {
      assert [e][1..] == [];
    }
  }

  lemma EvictOne(pre: seq<Id>, post: seq<Id>, vis: set<Id>)
    requires |post| >= 2 && post[0] !in vis
    ensures Effort(pre, post[1..], vis) == Effort(pre, post, vis) - 1
  {}

  lemma PassProtected(pre: seq<Id>, last: Id, vis: set<Id>)
    requires pre != [] && last !in vis
    ensures Effort([], pre + [last], vis) == Effort(pre, [last], vis) - 1
  {
    MarkedAppend(pre, [last], vis);
    assert [last][1..] == [];
  }

  /** A queue of n entries needs at most 2n iterations, whatever is marked and wherever the hand is. */
  lemma EffortBound(pre: seq<Id>, post: seq<Id>, vis: set<Id>)
    requires post != [] && post[|post| - 1] !in vis
    ensures Effort(pre, post, vis) <= 2 * |pre + post|
    ensures Effort(pre, post, vis) == 0 <==> pre == [] && |post| == 1
  {
    MarkedBelow(post, vis);
  }

  lemma {:induction false} MarkedBelow(q: seq<Id>, vis: set<Id>)
    requires q != [] && q[|q| - 1] !in vis
    ensures Marked(q, vis) <= |q| - 1
  {
    if |q| > 1 {
      MarkedBelow(q[1..], vis);
    } else {
      assert q[1..] == [];
    }
  }

  lemma {:induction false} MarkedAll(q: seq<Id>, vis: set<Id>)
    requires forall i :: 0 <= i < |q| ==> q[i] in vis
    ensures Marked(q, vis) == |q|
  {
    if q != [] {
      MarkedAll(q[1..], vis);
    }
  }

  /** The bound is reached: every entry but the last marked and the hand past the first one. */
  lemma EffortReached(pre: seq<Id>, post: seq<Id>, last: Id, vis: set<Id>)
    requires pre != [] && last !in vis
    requires (forall i :: 0 <= i < |pre| ==> pre[i] in vis) && forall i :: 0 <= i < |post| ==> post[i] in vis
    ensures Effort(pre, post + [last], vis) == 2 * |pre + post + [last]|
  {
    MarkedAll(pre, vis);
    MarkedAll(post, vis);
    MarkedAppend(post, [last], vis);
    assert [last][1..] == [];
  }
}
