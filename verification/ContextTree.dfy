/** The derivation tree of built-in contexts (go/src/context/context.go): who is whose parent. */
module ContextTree {
  import opened Options

  type Error = nat

  const CANCELED: Error := 0
  const DEADLINE_EXCEEDED: Error := 1

  /**
    A context names its parent by an earlier index; Todo contexts are Background ones. `causes`: made by
    WithCancelCause. A timer has the cause of WithDeadlineCause, and is `late` if its deadline had passed then.
   */
  datatype Ctx =
    | Background
    | Value(parent: nat, key: nat, val: nat)
    | Without(parent: nat)
    | Cancel(parent: nat, causes: bool)
    | Timer(parent: nat, deadline: int, late: bool, cause: Option<Error>)

  predicate Cancelable(x: Ctx) { x.Cancel? || x.Timer? }

  /** The error and the cause, if any, with which a cancel function or the timer of a context calls its cancel. */
  predicate Passes(x: Ctx, err: Error, cause: Option<Error>) {
    match x
    case Cancel(_, causes) => err == CANCELED && (causes || cause.None?)
    case Timer(_, _, late, own) =>
      (err == DEADLINE_EXCEEDED && cause == own) || (!late && err == CANCELED && cause.None?)
    case _ => false
  }

  datatype Outcome = Outcome(err: Option<Error>, cause: Option<Error>)

  /** How a cancel of its own can leave a context; no cause means the error. */
  predicate OwnOutcome(x: Ctx, o: Outcome) {
    && o.err.Some? && o.cause.Some?
    && (Passes(x, o.err.value, o.cause) || (o.cause == o.err && Passes(x, o.err.value, None)))
  }

  predicate Rooted(cs: seq<Ctx>) {
    forall c :: 0 <= c < |cs| && !cs[c].Background? ==> cs[c].parent < c
  }

  /** Value(&cancelCtxKey): the innermost cancelCtx at or above `c`; a WithoutCancel context hides those above it. */
  function Nearest(cs: seq<Ctx>, c: nat): (r: Option<nat>)
    requires Rooted(cs) && c < |cs|
    ensures r.Some? ==> r.value <= c && Cancelable(cs[r.value])
  {
    match cs[c]
    case Background => None
    case Without(_) => None
    case Value(p, _, _) => Nearest(cs, p)
    case Cancel(_, _) => Some(c)
    case Timer(_, _, _, _) => Some(c)
  }

  /** The cancelCtx that cancels the cancelCtx `c` when it is canceled. */
  function Above(cs: seq<Ctx>, c: nat): (r: Option<nat>)
    requires Rooted(cs) && c < |cs| && Cancelable(cs[c])
    ensures r.Some? ==> r.value < c && Cancelable(cs[r.value])
  {
    Nearest(cs, cs[c].parent)
  }

  /** `d` is `a` or is canceled through a chain of cancelCtx that ends at `a`. */
  predicate Under(cs: seq<Ctx>, d: nat, a: nat)
    requires Rooted(cs) && d < |cs| && Cancelable(cs[d])
    decreases d
  {
    d == a || (Above(cs, d).Some? && Under(cs, Above(cs, d).value, a))
  }

  lemma {:induction false} UnderIsCancel(cs: seq<Ctx>, d: nat, a: nat)
    requires Rooted(cs) && d < |cs| && Cancelable(cs[d]) && Under(cs, d, a)
    ensures a <= d && Cancelable(cs[a])
    decreases d
  {
    if d != a { UnderIsCancel(cs, Above(cs, d).value, a); }
  }

  lemma {:induction false} NearestPrefix(cs: seq<Ctx>, ds: seq<Ctx>, c: nat)
    requires Rooted(cs) && Rooted(ds) && cs <= ds && c < |cs|
    ensures Nearest(ds, c) == Nearest(cs, c)
  {
    if cs[c].Value? { NearestPrefix(cs, ds, cs[c].parent); }
  }

  lemma AbovePrefix(cs: seq<Ctx>, ds: seq<Ctx>)
    requires Rooted(cs) && Rooted(ds) && cs <= ds
    ensures forall c :: 0 <= c < |cs| && Cancelable(cs[c]) ==> Above(ds, c) == Above(cs, c)
  {
    forall c | 0 <= c < |cs| && Cancelable(cs[c]) ensures Above(ds, c) == Above(cs, c) {
      NearestPrefix(cs, ds, cs[c].parent);
    }
  }

  // ---------------------------------------------------------------- values and deadlines

  /** What a lookup is for: the private key of cancelCtx, or a caller's own. */
  datatype Key = CancelKey | UserKey(k: nat)
  datatype Answer = Nothing | Context(c: nat) | Val(v: nat)

  /** The nearest enclosing binding of a caller's key. */
  function Lookup(cs: seq<Ctx>, c: nat, k: nat): Answer
    requires Rooted(cs) && c < |cs|
  {
    if cs[c].Background? then Nothing
    else if cs[c].Value? && cs[c].key == k then Val(cs[c].val)
    else Lookup(cs, cs[c].parent, k)
  }

  /** value: the loop up the parents. */
  method value(cs: seq<Ctx>, c0: nat, key: Key) returns (r: Answer)
    requires Rooted(cs) && c0 < |cs|
    ensures key.CancelKey? ==> r == match Nearest(cs, c0) case None => Nothing case Some(c) => Context(c)
    ensures key.UserKey? ==> r == Lookup(cs, c0, key.k)
  {
    var c: nat := c0;
    while true
      invariant c < |cs|
      invariant key.CancelKey? ==> Nearest(cs, c0) == Nearest(cs, c)
      invariant key.UserKey? ==> Lookup(cs, c0, key.k) == Lookup(cs, c, key.k)
      decreases c
    {
      match cs[c]
      case Value(p, k, v) =>
        if key == UserKey(k) { return Val(v); }
        c := p;
      case Cancel(p, _) =>
        if key.CancelKey? { return Context(c); }
        c := p;
      case Without(p) =>
        if key.CancelKey? { return Nothing; }
        c := p;
      case Timer(p, _, _, _) =>
        if key.CancelKey? { return Context(c); }
        c := p;
      case Background =>
        return Nothing;
    }
  }

  function Deadline(cs: seq<Ctx>, c: nat): Option<int>
    requires Rooted(cs) && c < |cs|
  {
    match cs[c]
    case Background => None
    case Without(_) => None
    case Value(p, _, _) => Deadline(cs, p)
    case Cancel(p, _) => Deadline(cs, p)
    case Timer(_, d, _, _) => Some(d)
  }

  /** WithDeadlineCause: a timer only where the parent does not expire before. */
  function WithDeadline(cs: seq<Ctx>, parent: nat, d: int, late: bool, cause: Option<Error>): Ctx
    requires Rooted(cs) && parent < |cs|
  {
    match Deadline(cs, parent)
    case Some(cur) => if cur < d then Cancel(parent, false) else Timer(parent, d, late, cause)
    case None => Timer(parent, d, late, cause)
  }

  lemma {:induction false} DeadlinePrefix(cs: seq<Ctx>, x: Ctx, c: nat)
    requires Rooted(cs) && Rooted(cs + [x]) && c < |cs|
    ensures Deadline(cs + [x], c) == Deadline(cs, c)
  {
    if cs[c].Value? || cs[c].Cancel? { DeadlinePrefix(cs, x, cs[c].parent); }
  }

  /** The new context expires at the earlier of `d` and its parent's deadline. */
  lemma DeadlineIsMin(cs: seq<Ctx>, parent: nat, d: int, late: bool, cause: Option<Error>)
    requires Rooted(cs) && parent < |cs|
    ensures var x := WithDeadline(cs, parent, d, late, cause);
      && Rooted(cs + [x])
      && Deadline(cs + [x], |cs|) ==
           Some(match Deadline(cs, parent) case Some(cur) => if cur < d then cur else d case None => d)
  {
    DeadlinePrefix(cs, WithDeadline(cs, parent, d, late, cause), parent);
  }

  /** Every timer on a tree built by WithDeadline expires no later than the deadlines above it. */
  ghost predicate Tightening(cs: seq<Ctx>)
    requires Rooted(cs)
  {
    forall c :: 0 <= c < |cs| && cs[c].Timer? ==>
      match Deadline(cs, cs[c].parent) case Some(cur) => cs[c].deadline <= cur case None => true
  }

  lemma StaysTight(cs: seq<Ctx>, x: Ctx)
    requires Rooted(cs) && Tightening(cs) && Rooted(cs + [x])
    requires x.Timer? ==> x.parent < |cs| && x == WithDeadline(cs, x.parent, x.deadline, x.late, x.cause)
    ensures Tightening(cs + [x])
  {
    forall c | 0 <= c < |cs + [x]| && (cs + [x])[c].Timer?
      ensures match Deadline(cs + [x], (cs + [x])[c].parent)
        case Some(cur) => (cs + [x])[c].deadline <= cur
        case None => true
    {
      DeadlinePrefix(cs, x, (cs + [x])[c].parent);
    }
  }
}
