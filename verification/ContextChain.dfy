/** What the lookups up the derivation tree come to, told by parent steps alone. */
module ContextChain {
  import opened Options
  import opened ContextTree

  /** Each of `w` but the first is the parent of the one before it. */
  predicate Chain(cs: seq<Ctx>, w: seq<nat>) {
    && w != [] && (forall i :: 0 <= i < |w| ==> w[i] < |cs|)
    && forall i :: 0 <= i < |w| - 1 ==> !cs[w[i]].Background? && cs[w[i]].parent == w[i + 1]
  }

  /** From `c` one comes to `a` by parents, past contexts that are all `ok`. */
  ghost predicate ComesTo(cs: seq<Ctx>, c: nat, a: nat, ok: Ctx -> bool) {
    exists w :: Chain(cs, w) && w[0] == c && w[|w|-1] == a && forall i :: 0 <= i < |w| - 1 ==> ok(cs[w[i]])
  }

  predicate IsValue(x: Ctx) { x.Value? }

  predicate IsEnd(x: Ctx) { x.Background? || x.Without? }

  predicate NotWithout(x: Ctx) { !x.Without? }

  predicate NotTimer(x: Ctx) { x.Value? || x.Cancel? }

  function Other(k: nat): Ctx -> bool { (x: Ctx) => !(x.Value? && x.key == k) }

  /** The cancelCtx `p` is above `c` with nothing but values between. */
  ghost predicate FedBy(cs: seq<Ctx>, c: nat, p: nat) {
    c < |cs| && !cs[c].Background? && p < |cs| && Cancelable(cs[p]) && ComesTo(cs, cs[c].parent, p, IsValue)
  }

  /** `d` is the cancelCtx `a` or derived from it with no WithoutCancel between. */
  ghost predicate DerivedFrom(cs: seq<Ctx>, d: nat, a: nat) {
    a < |cs| && Cancelable(cs[a]) && ComesTo(cs, d, a, NotWithout)
  }

  // ---------------------------------------------------------------- chains

  lemma ComesHere(cs: seq<Ctx>, c: nat, ok: Ctx -> bool)
    requires c < |cs|
    ensures ComesTo(cs, c, c, ok)
  {
    assert Chain(cs, [c]);
  }

  lemma ComesUp(cs: seq<Ctx>, c: nat, a: nat, ok: Ctx -> bool)
    requires c < |cs| && !cs[c].Background? && ok(cs[c]) && ComesTo(cs, cs[c].parent, a, ok)
    ensures ComesTo(cs, c, a, ok)
  {
    var w :| Chain(cs, w) && w[0] == cs[c].parent && w[|w|-1] == a && forall i :: 0 <= i < |w| - 1 ==> ok(cs[w[i]]);
    var v := [c] + w;
    assert forall i :: 0 < i < |v| ==> v[i] == w[i - 1];
    assert Chain(cs, v) && v[0] == c && v[|v|-1] == a;
  }

  lemma ComesFrom(cs: seq<Ctx>, c: nat, a: nat, ok: Ctx -> bool)
    requires ComesTo(cs, c, a, ok)
    ensures c < |cs| && a < |cs|
    ensures c == a || (!cs[c].Background? && ok(cs[c]) && ComesTo(cs, cs[c].parent, a, ok))
  {
    var w :| Chain(cs, w) && w[0] == c && w[|w|-1] == a && forall i :: 0 <= i < |w| - 1 ==> ok(cs[w[i]]);
    if |w| > 1 {
      var v := w[1..];
      assert forall i :: 0 <= i < |v| ==> v[i] == w[i + 1];
      assert Chain(cs, v) && v[0] == cs[c].parent && v[|v|-1] == a;
    }
  }

  lemma {:induction false} ComesOn(cs: seq<Ctx>, c: nat, p: nat, a: nat, ok: Ctx -> bool, more: Ctx -> bool)
    requires Rooted(cs) && ComesTo(cs, c, p, ok) && ComesTo(cs, p, a, more) && forall x :: ok(x) ==> more(x)
    ensures ComesTo(cs, c, a, more)
    decreases c
  {
    ComesFrom(cs, c, p, ok);
    if c != p {
      ComesOn(cs, cs[c].parent, p, a, ok, more);
      ComesUp(cs, c, a, more);
    }
  }

  // ---------------------------------------------------------------- the nearest cancelCtx

  /** The nearest cancelCtx is one at or above `c` with nothing but values before it. */
  lemma {:induction false} NearestIs(cs: seq<Ctx>, c: nat, a: nat)
    requires Rooted(cs) && c < |cs|
    ensures Nearest(cs, c) == Some(a) <==> a < |cs| && Cancelable(cs[a]) && ComesTo(cs, c, a, IsValue)
    decreases c
  {
    hide ComesTo;
    ComesHere(cs, c, IsValue);
    if ComesTo(cs, c, a, IsValue) { ComesFrom(cs, c, a, IsValue); }
    if cs[c].Value? {
      NearestIs(cs, cs[c].parent, a);
      if ComesTo(cs, cs[c].parent, a, IsValue) { ComesUp(cs, c, a, IsValue); }
    }
  }

  /** There is none where a root or a WithoutCancel comes first. */
  lemma {:induction false} NoneNearest(cs: seq<Ctx>, c: nat)
    requires Rooted(cs) && c < |cs|
    ensures Nearest(cs, c).None? <==> exists a :: 0 <= a < |cs| && IsEnd(cs[a]) && ComesTo(cs, c, a, IsValue)
    decreases c
  {
    hide ComesTo;
    ComesHere(cs, c, IsValue);
    if a :| 0 <= a < |cs| && IsEnd(cs[a]) && ComesTo(cs, c, a, IsValue) { ComesFrom(cs, c, a, IsValue); }
    if cs[c].Value? {
      NoneNearest(cs, cs[c].parent);
      if a :| 0 <= a < |cs| && IsEnd(cs[a]) && ComesTo(cs, cs[c].parent, a, IsValue) { ComesUp(cs, c, a, IsValue); }
    }
  }

  lemma AboveIs(cs: seq<Ctx>, c: nat, p: nat)
    requires Rooted(cs) && c < |cs| && Cancelable(cs[c])
    ensures Above(cs, c) == Some(p) <==> FedBy(cs, c, p)
  {
    NearestIs(cs, cs[c].parent, p);
  }

  lemma {:induction false} NearestOn(cs: seq<Ctx>, c: nat, a: nat)
    requires Rooted(cs) && DerivedFrom(cs, c, a)
    ensures c < |cs| && Nearest(cs, c).Some? && ComesTo(cs, Nearest(cs, c).value, a, NotWithout)
    decreases c
  {
    hide ComesTo;
    ComesFrom(cs, c, a, NotWithout);
    if cs[c].Value? { NearestOn(cs, cs[c].parent, a); }
  }

  /** A chain of cancelCtx is a chain of parents without a WithoutCancel. */
  lemma {:induction false} UnderIs(cs: seq<Ctx>, d: nat, a: nat)
    requires Rooted(cs) && d < |cs| && Cancelable(cs[d])
    ensures Under(cs, d, a) <==> DerivedFrom(cs, d, a)
    decreases d
  {
    hide ComesTo;
    ComesHere(cs, d, NotWithout);
    if DerivedFrom(cs, d, a) && d != a {
      ComesFrom(cs, d, a, NotWithout);
      NearestOn(cs, cs[d].parent, a);
    }
    if Above(cs, d).Some? {
      var p := Above(cs, d).value;
      UnderIs(cs, p, a);
      if d != a && Under(cs, p, a) {
        NearestIs(cs, cs[d].parent, p);
        ComesOn(cs, cs[d].parent, p, a, IsValue, NotWithout);
        ComesUp(cs, d, a, NotWithout);
      }
    }
  }

  // ---------------------------------------------------------------- values and deadlines

  /** A caller's key has the value of the first binding at or above `c`, WithoutCancel or not. */
  lemma {:induction false} LookupIs(cs: seq<Ctx>, c: nat, k: nat, v: nat)
    requires Rooted(cs) && c < |cs|
    ensures Lookup(cs, c, k) == Val(v) <==>
      exists a, p :: 0 <= a < |cs| && cs[a] == Value(p, k, v) && ComesTo(cs, c, a, Other(k))
    ensures Lookup(cs, c, k) == Nothing <==>
      exists a :: 0 <= a < |cs| && cs[a].Background? && ComesTo(cs, c, a, Other(k))
    decreases c
  {
    hide ComesTo;
    ComesHere(cs, c, Other(k));
    if a, p :| 0 <= a < |cs| && cs[a] == Value(p, k, v) && ComesTo(cs, c, a, Other(k)) {
      ComesFrom(cs, c, a, Other(k));
    }
    if a :| 0 <= a < |cs| && cs[a].Background? && ComesTo(cs, c, a, Other(k)) { ComesFrom(cs, c, a, Other(k)); }
    if !cs[c].Background? && Other(k)(cs[c]) {
      LookupIs(cs, cs[c].parent, k, v);
      forall a | 0 <= a < |cs| && ComesTo(cs, cs[c].parent, a, Other(k)) ensures ComesTo(cs, c, a, Other(k)) {
        ComesUp(cs, c, a, Other(k));
      }
    }
    if cs[c].Value? && cs[c].key == k { assert cs[c] == Value(cs[c].parent, k, cs[c].val); }
  }

  /** The deadline is that of the first timer, unless a root or a WithoutCancel comes before it. */
  lemma {:induction false} DeadlineIs(cs: seq<Ctx>, c: nat, d: int)
    requires Rooted(cs) && c < |cs|
    ensures Deadline(cs, c) == Some(d) <==>
      exists a :: 0 <= a < |cs| && cs[a].Timer? && cs[a].deadline == d && ComesTo(cs, c, a, NotTimer)
    ensures Deadline(cs, c) == None <==> exists a :: 0 <= a < |cs| && IsEnd(cs[a]) && ComesTo(cs, c, a, NotTimer)
    decreases c
  {
    hide ComesTo;
    ComesHere(cs, c, NotTimer);
    if a :| 0 <= a < |cs| && cs[a].Timer? && cs[a].deadline == d && ComesTo(cs, c, a, NotTimer) {
      ComesFrom(cs, c, a, NotTimer);
    }
    if a :| 0 <= a < |cs| && IsEnd(cs[a]) && ComesTo(cs, c, a, NotTimer) { ComesFrom(cs, c, a, NotTimer); }
    if NotTimer(cs[c]) {
      DeadlineIs(cs, cs[c].parent, d);
      forall a | 0 <= a < |cs| && ComesTo(cs, cs[c].parent, a, NotTimer) ensures ComesTo(cs, c, a, NotTimer) {
        ComesUp(cs, c, a, NotTimer);
      }
    }
  }
}
