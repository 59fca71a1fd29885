/**
What a key holds, and what records do to it.  A key holds a version and some parts of it: the
replicas of a hot put, the slices of a striped one, or the single part of a plain one.  A newer
version replaces an older one and parts of the same version come together, in any order; a
deletion forgets everything.  So what any list of records does is: forget or not, then join.
*/
module Effects {
  import opened Common

  datatype Content = Content(ver: nat, parts: set<nat>)
  type Held = Option<Content>

  /** The newer one, or both together. */
  function Join(a: Held, b: Held): Held {
    if a.None? then b
    else if b.None? then a
    else if a.value.ver < b.value.ver then b
    else if b.value.ver < a.value.ver then a
    else Some(Content(a.value.ver, a.value.parts + b.value.parts))
  }

  /** Nothing of a is missing from b: b is newer, or has all its parts. */
  predicate Below(a: Held, b: Held) {
    a.None? || (b.Some? && (a.value.ver < b.value.ver || (a.value.ver == b.value.ver && a.value.parts <= b.value.parts)))
  }

  lemma JoinLaws(a: Held, b: Held, c: Held)
    ensures Join(a, b) == Join(b, a) && Join(a, a) == a && Join(Join(a, b), c) == Join(a, Join(b, c))
    ensures Join(a, b) == b <==> Below(a, b)
    ensures Below(a, Join(a, b)) && (Below(Join(a, b), c) <==> Below(a, c) && Below(b, c))
  {
    if a.Some? && b.Some? {
      var p, q := a.value.parts, b.value.parts;
      assert p + q == q + p && p + p == p && (p + q == q <==> p <= q);
      if c.Some? {
        assert (p + q) + c.value.parts == p + (q + c.value.parts);
      }
    } else if a.Some? {
      assert a.value.parts + a.value.parts == a.value.parts;
    }
  }

  /** Whether a deletion is among the records, and what they put behind the last one. */
  datatype Effect = Effect(reset: bool, sum: Held)

  const NOTHING: Effect := Effect(false, None)
  const RESET: Effect := Effect(true, None)

  function Add(v: nat, parts: set<nat>): Effect {
    Effect(false, Some(Content(v, parts)))
  }

  function Act(y: Held, e: Effect): Held {
    if e.reset then e.sum else Join(y, e.sum)
  }

  function Then(e: Effect, f: Effect): Effect {
    if f.reset then f else Effect(e.reset, Join(e.sum, f.sum))
  }

  lemma ActThen(y: Held, e: Effect, f: Effect)
    ensures Act(Act(y, e), f) == Act(y, Then(e, f))
  {
    JoinLaws(y, e.sum, f.sum);
  }

  lemma ThenLaws(e: Effect, f: Effect, g: Effect)
    ensures Then(e, NOTHING) == e && Then(NOTHING, e) == e && Then(Then(e, f), g) == Then(e, Then(f, g))
  {
    JoinLaws(e.sum, f.sum, g.sum);
  }

  /** Records replayed over what they led to change nothing. */
  lemma ActTwice(y: Held, e: Effect)
    ensures Act(Act(y, e), e) == Act(y, e)
  {
    JoinLaws(y, e.sum, e.sum);
    JoinLaws(e.sum, e.sum, None);
  }

  /** Effect e changes nothing of y. */
  predicate Repeats(y: Held, e: Effect) {
    if e.reset then e.sum == y else Below(e.sum, y)
  }

  lemma RepeatsIff(y: Held, e: Effect)
    ensures Act(y, e) == y <==> Repeats(y, e)
  {
    JoinLaws(e.sum, y, None);
    JoinLaws(y, e.sum, None);
  }

  // ----- Replaying over what the records led to, and more -----

  /**
  Replaying the flushed records, with effect e, over a leaf that the flushed records (effect d)
  and then the unflushed ones (effect u) led to.
  */
  predicate Harmless(e: Effect, d: Effect, u: Effect) {
    if e.reset then e.sum == Then(d, u).sum else u.reset ==> Below(e.sum, u.sum)
  }

  lemma ReplayOver(x: Held, e: Effect, d: Effect, u: Effect)
    requires e.reset == d.reset && (!e.reset ==> Below(e.sum, d.sum))
    ensures Act(Act(x, Then(d, u)), e) == Act(x, Then(d, u)) <==> Harmless(e, d, u)
  {
    var y := Act(x, Then(d, u));
    RepeatsIff(y, e);
    if !e.reset && !u.reset {
      JoinLaws(d.sum, u.sum, y);
      JoinLaws(d.sum, u.sum, u.sum);
      JoinLaws(x, Join(d.sum, u.sum), None);
      JoinLaws(Join(d.sum, u.sum), x, None);
      BelowTransitive(e.sum, d.sum, Join(d.sum, u.sum));
      BelowTransitive(e.sum, Join(d.sum, u.sum), y);
    }
  }

  lemma BelowTransitive(a: Held, b: Held, c: Held)
    requires Below(a, b) && Below(b, c)
    ensures Below(a, c)
  {}

  // ----- Replaying with records missing -----

  /** What is left of the records, effect f, does to y what all of them, effect e, did. */
  predicate Uncut(y: Held, e: Effect, f: Effect) {
    if f.reset then e.reset && e.sum == f.sum
    else if e.reset then Join(y, f.sum) == e.sum
    else Below(f.sum, Join(y, e.sum)) && Below(e.sum, Join(y, f.sum))
  }

  lemma ReplayCut(y: Held, e: Effect, f: Effect)
    requires f.reset ==> e.reset
    ensures Act(y, f) == Act(y, e) <==> Uncut(y, e, f)
  {
    var a, b := Join(y, e.sum), Join(y, f.sum);
    JoinLaws(y, e.sum, b);
    JoinLaws(y, f.sum, a);
    JoinLaws(e.sum, y, None);
    JoinLaws(f.sum, y, None);
    if Below(a, b) && Below(b, a) {
      BelowBoth(a, b);
    }
  }

  lemma BelowBoth(a: Held, b: Held)
    requires Below(a, b) && Below(b, a)
    ensures a == b
  {
    if a.Some? {
      assert a.value.parts == b.value.parts;
    }
  }

  /**
  When records q in front of r are gone and each record has its own effect: a deletion is left; or
  one was among those gone and what is left joins the leaf as it joined what they put behind it;
  or nothing that they put is missing.
  */
  lemma CutInTwo(y: Held, q: Effect, r: Effect)
    ensures Uncut(y, Then(q, r), r) <==>
            || r.reset
            || (if q.reset then Join(y, r.sum) == Join(q.sum, r.sum) else Below(q.sum, Join(y, r.sum)))
  {
    if !r.reset && !q.reset {
      JoinLaws(q.sum, r.sum, Join(y, r.sum));
      JoinLaws(y, Join(q.sum, r.sum), None);
      JoinLaws(Join(q.sum, r.sum), y, None);
      JoinLaws(r.sum, y, None);
      JoinLaws(y, r.sum, None);
      JoinLaws(r.sum, q.sum, None);
      BelowTransitive(r.sum, Join(q.sum, r.sum), Join(y, Join(q.sum, r.sum)));
    }
  }
}
