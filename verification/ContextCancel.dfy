/**
  Cancellation of contexts (go/src/context/context.go) as steps of goroutines. One step is one atomic
  load or store, or one block under a mutex that touches nothing another goroutine can see half done.
 */
module ContextCancel {
  import opened Options
  import opened ContextTree

  /** The done field of a cancelCtx: nil, a channel of its own, or the shared closed channel. */
  datatype Done = Unmade | Own(closed: bool) | Shared

  predicate Closed(d: Done) { d.Shared? || (d.Own? && d.closed) }

  /** Who holds a mutex: the frame at depth `i` of goroutine `t`. */
  datatype Holder = Holder(t: nat, i: nat)

  /**
    A cancelCtx. `linked`: propagateCancel has arranged for its cancellation. `direct`: its error was
    set by a cancel called on itself, not passed down from above.
   */
  datatype Node = Node(err: Option<Error>, cause: Option<Error>, done: Done, children: set<nat>,
                       lock: Option<Holder>, linked: bool, direct: bool)

  const BLANK := Node(None, None, Unmade, {}, None, false, false)

  datatype CancelPc = Entry | Locked | Stored | Loop(rest: set<nat>) | Calling(rest: set<nat>, k: nat)
  datatype TimerPc = TEntry | TCalling | TRemove | TRemoving | TStop
  datatype LinkPc =
    | Select
    | GetErr
    | GetCause(err: Option<Error>)
    | Find
    | Lock
    | Check
    | Canceling(held: bool)
    | Finish(held: bool)
    | Watch

  /** A call in progress: cancelCtx.cancel, timerCtx.cancel, removeChild, propagateCancel, Err. */
  datatype Frame =
    | CancelFrame(c: nat, remove: bool, err: Option<Error>, cause: Option<Error>, direct: bool, cpc: CancelPc)
    | TimerFrame(c: nat, remove: bool, err: Option<Error>, cause: Option<Error>, direct: bool, tpc: TimerPc)
    | RemoveFrame(c: nat)
    | DeleteFrame(c: nat, p: nat)
    | LinkStart(c: nat)
    | LinkFrame(c: nat, p: nat, lpc: LinkPc)
    | ErrLoad(c: nat)
    | ErrWait(c: nat, e: Error)

  /** `seen` are the non-nil results of Err so far. */
  datatype State = State(
    ctxs: seq<Ctx>, nodes: seq<Node>, stacks: seq<seq<Frame>>, seen: set<(nat, Error)>, panicked: bool)

  predicate FrameIds(cs: seq<Ctx>, f: Frame)
    requires Rooted(cs)
  {
    && f.c < |cs| && Cancelable(cs[f.c])
    && (f.CancelFrame? && (f.cpc.Loop? || f.cpc.Calling?) ==>
          forall k :: k in f.cpc.rest ==> k < |cs| && Cancelable(cs[k]))
    && (f.DeleteFrame? ==> Above(cs, f.c) == Some(f.p))
    && (f.LinkFrame? ==> Above(cs, f.c) == Some(f.p))
  }

  predicate Ids(s: State) {
    && Rooted(s.ctxs) && |s.nodes| == |s.ctxs|
    && forall t, i :: 0 <= t < |s.stacks| && 0 <= i < |s.stacks[t]| ==> FrameIds(s.ctxs, s.stacks[t][i])
  }

  // ---------------------------------------------------------------- pieces of a step

  function SetNode(s: State, c: nat, n: Node): State
    requires c < |s.nodes|
  {
    s.(nodes := s.nodes[c := n])
  }

  function SetTop(s: State, t: nat, f: Frame): State
    requires t < |s.stacks| && s.stacks[t] != []
  {
    var st := s.stacks[t];
    s.(stacks := s.stacks[t := st[..|st|-1] + [f]])
  }

  /** The top frame becomes `f` and calls `g`. */
  function Call(s: State, t: nat, f: Frame, g: Frame): State
    requires t < |s.stacks| && s.stacks[t] != []
  {
    var st := s.stacks[t];
    s.(stacks := s.stacks[t := st[..|st|-1] + [f, g]])
  }

  /** Where a caller goes on when its call returns. */
  function Resume(f: Frame): Frame {
    match f
    case CancelFrame(c, r, e, u, d, Calling(rest, k)) => CancelFrame(c, r, e, u, d, Loop(rest - {k}))
    case TimerFrame(c, r, e, u, d, TCalling) => TimerFrame(c, r, e, u, d, TRemove)
    case TimerFrame(c, r, e, u, d, TRemoving) => TimerFrame(c, r, e, u, d, TStop)
    case LinkFrame(c, p, Canceling(held)) => LinkFrame(c, p, Finish(held))
    case _ => f
  }

  function Return(s: State, t: nat): State
    requires t < |s.stacks| && s.stacks[t] != []
  {
    var st := s.stacks[t][..|s.stacks[t]|-1];
    s.(stacks := s.stacks[t := if st == [] then [] else st[..|st|-1] + [Resume(st[|st|-1])]])
  }

  /** The call child.cancel(remove, err, cause) on a context of either kind. */
  function CancelCall(cs: seq<Ctx>, c: nat, remove: bool, err: Option<Error>, cause: Option<Error>, direct: bool): Frame
    requires c < |cs|
  {
    if cs[c].Timer? then TimerFrame(c, remove, err, cause, direct, TEntry)
    else CancelFrame(c, remove, err, cause, direct, Entry)
  }

  // ---------------------------------------------------------------- one step of a running call

  /** cancelCtx.cancel; `pick` is the child that map iteration comes to next. */
  function CancelStep(s: State, t: nat, pick: nat): Option<State>
    requires Ids(s) && t < |s.stacks| && s.stacks[t] != [] && s.stacks[t][|s.stacks[t]|-1].CancelFrame?
  {
    var i := |s.stacks[t]| - 1;
    var f := s.stacks[t][i];
    var n := s.nodes[f.c];
    match f.cpc
    case Entry =>
      if f.err.None? then Some(s.(panicked := true))
      else if n.lock.Some? then None
      else Some(SetTop(SetNode(s, f.c, n.(lock := Some(Holder(t, i)))), t,
                       f.(cause := if f.cause.None? then f.err else f.cause, cpc := Locked)))
    case Locked =>
      if n.err.Some? then Some(Return(SetNode(s, f.c, n.(lock := None)), t))
      else Some(SetTop(SetNode(s, f.c, n.(err := f.err, direct := f.direct)), t, f.(cpc := Stored)))
    case Stored =>
      if n.done == Own(true) || n.done.Shared? then Some(s.(panicked := true))
      else
        var d := if n.done.Unmade? then Shared else Own(true);
        Some(SetTop(SetNode(s, f.c, n.(cause := f.cause, done := d)), t, f.(cpc := Loop(n.children))))
    case Loop(rest) =>
      if pick in rest then
        Some(Call(s, t, f.(cpc := Calling(rest, pick)), CancelCall(s.ctxs, pick, false, f.err, f.cause, false)))
      else if rest != {} then None
      else
        var u := SetNode(s, f.c, n.(children := {}, lock := None));
        Some(if f.remove then SetTop(u, t, RemoveFrame(f.c)) else Return(u, t))
    case Calling(_, _) => None
  }

  /** timerCtx.cancel */
  function TimerStep(s: State, t: nat): Option<State>
    requires Ids(s) && t < |s.stacks| && s.stacks[t] != [] && s.stacks[t][|s.stacks[t]|-1].TimerFrame?
  {
    var f := s.stacks[t][|s.stacks[t]|-1];
    match f.tpc
    case TEntry => Some(Call(s, t, f.(tpc := TCalling), CancelFrame(f.c, false, f.err, f.cause, f.direct, Entry)))
    case TRemove =>
      Some(if f.remove then Call(s, t, f.(tpc := TRemoving), RemoveFrame(f.c)) else SetTop(s, t, f.(tpc := TStop)))
    case TStop => if s.nodes[f.c].lock.Some? then None else Some(Return(s, t))
    case TCalling => None
    case TRemoving => None
  }

  /** removeChild: parentCancelCtx, then the deletion under the parent's mutex. */
  function RemoveStep(s: State, t: nat): Option<State>
    requires Ids(s) && t < |s.stacks| && s.stacks[t] != []
    requires var f := s.stacks[t][|s.stacks[t]|-1]; f.RemoveFrame? || f.DeleteFrame?
  {
    var f := s.stacks[t][|s.stacks[t]|-1];
    match f
    case RemoveFrame(c) =>
      (match Above(s.ctxs, c)
       case None => Some(Return(s, t))
       case Some(p) =>
         var n := s.nodes[p];
         if n.done.Unmade? then
           if n.lock.Some? then None else Some(SetTop(SetNode(s, p, n.(done := Own(false))), t, DeleteFrame(c, p)))
         else if n.done.Shared? then Some(Return(s, t))
         else Some(SetTop(s, t, DeleteFrame(c, p))))
    case DeleteFrame(c, p) =>
      var n := s.nodes[p];
      if n.lock.Some? then None else Some(Return(SetNode(s, p, n.(children := n.children - {c})), t))
  }

  /** propagateCancel */
  function LinkStep(s: State, t: nat): Option<State>
    requires Ids(s) && t < |s.stacks| && s.stacks[t] != []
    requires var f := s.stacks[t][|s.stacks[t]|-1]; f.LinkStart? || f.LinkFrame?
  {
    var i := |s.stacks[t]| - 1;
    var f := s.stacks[t][i];
    match f
    case LinkStart(c) =>
      (match Above(s.ctxs, c)
       case None => Some(Return(SetNode(s, c, s.nodes[c].(linked := true)), t))
       case Some(p) =>
         var n := s.nodes[p];
         if n.done.Unmade? then
           if n.lock.Some? then None
           else Some(SetTop(SetNode(s, p, n.(done := Own(false))), t, LinkFrame(c, p, Select)))
         else Some(SetTop(s, t, LinkFrame(c, p, Select))))
    case LinkFrame(c, p, pc) =>
      var n := s.nodes[p];
      match pc
      case Select => Some(SetTop(s, t, LinkFrame(c, p, if Closed(n.done) then GetErr else Find)))
      case GetErr => Some(SetTop(s, t, LinkFrame(c, p, GetCause(n.err))))
      case GetCause(e) =>
        if n.lock.Some? then None
        else
          var cause := if n.cause.Some? then n.cause else n.err;
          Some(Call(s, t, LinkFrame(c, p, Canceling(false)), CancelCall(s.ctxs, c, false, e, cause, false)))
      case Find => Some(SetTop(s, t, LinkFrame(c, p, if n.done.Shared? then Watch else Lock)))
      case Lock =>
        if n.lock.Some? then None
        else Some(SetTop(SetNode(s, p, n.(lock := Some(Holder(t, i)))), t, LinkFrame(c, p, Check)))
      case Check =>
        if n.err.Some? then
          Some(Call(s, t, LinkFrame(c, p, Canceling(true)), CancelCall(s.ctxs, c, false, n.err, n.cause, false)))
        else
          var u := SetNode(s, p, n.(children := n.children + {c}));
          Some(SetTop(SetNode(u, c, u.nodes[c].(linked := true)), t, LinkFrame(c, p, Finish(true))))
      case Finish(held) =>
        var u := if held then SetNode(s, p, n.(lock := None)) else s;
        Some(Return(SetNode(u, c, u.nodes[c].(linked := true)), t))
      case Canceling(_) => None
      case Watch => None
  }

  /** Err: the lock-free load, then the wait for the done channel. */
  function ErrStep(s: State, t: nat): Option<State>
    requires Ids(s) && t < |s.stacks| && s.stacks[t] != []
    requires var f := s.stacks[t][|s.stacks[t]|-1]; f.ErrLoad? || f.ErrWait?
  {
    var f := s.stacks[t][|s.stacks[t]|-1];
    var n := s.nodes[f.c];
    match f
    case ErrLoad(c) => Some(if n.err.Some? then SetTop(s, t, ErrWait(c, n.err.value)) else Return(s, t))
    case ErrWait(c, e) =>
      if Closed(n.done) then Some(Return(s.(seen := s.seen + {(c, e)}), t))
      else if n.done.Unmade? && n.lock.None? then Some(SetNode(s, c, n.(done := Own(false))))
      else None
  }

  /** One step of goroutine `t`; None while it is blocked or idle. */
  function Next(s: State, t: nat, pick: nat): Option<State>
    requires Ids(s)
  {
    if t >= |s.stacks| || s.stacks[t] == [] || s.panicked then None
    else
      match s.stacks[t][|s.stacks[t]|-1]
      case CancelFrame(_, _, _, _, _, _) => CancelStep(s, t, pick)
      case TimerFrame(_, _, _, _, _, _) => TimerStep(s, t)
      case RemoveFrame(_) => RemoveStep(s, t)
      case DeleteFrame(_, _) => RemoveStep(s, t)
      case LinkStart(_) => LinkStep(s, t)
      case LinkFrame(_, _, _) => LinkStep(s, t)
      case ErrLoad(_) => ErrStep(s, t)
      case ErrWait(_, _) => ErrStep(s, t)
  }

  // ---------------------------------------------------------------- what callers may do

  datatype Action =
    | Go(t: nat, pick: nat)
    | Spawn
    | CallCancel(t: nat, c: nat, err: Error, cause: Option<Error>)
    | CallErr(t: nat, c: nat)
    | CallDone(c: nat)
    | Derive(t: nat, x: Ctx)

  predicate Idle(s: State, t: nat) { t < |s.stacks| && s.stacks[t] == [] }

  /** A cancelCtx a caller can have its hands on. */
  predicate Usable(s: State, c: nat)
    requires Ids(s)
  {
    c < |s.nodes| && Cancelable(s.ctxs[c]) && s.nodes[c].linked
  }

  /** The contexts that can be derived: from a finished parent, timers as WithDeadlineCause makes them. */
  predicate Derivable(s: State, x: Ctx)
    requires Ids(s)
  {
    x.Background? || (
      && x.parent < |s.ctxs| && s.nodes[x.parent].linked
      && (x.Timer? ==> x == WithDeadline(s.ctxs, x.parent, x.deadline, x.late, x.cause)))
  }

  /** The state after `a`, if it can happen. The function of a cancel, a timer and Err run on an idle goroutine. */
  function Do(s: State, a: Action): Option<State>
    requires Ids(s)
  {
    match a
    case Go(t, pick) => Next(s, t, pick)
    case Spawn => Some(s.(stacks := s.stacks + [[]]))
    case CallCancel(t, c, err, cause) =>
      if Idle(s, t) && Usable(s, c) && Passes(s.ctxs[c], err, cause) then
        Some(s.(stacks := s.stacks[t := [CancelCall(s.ctxs, c, true, Some(err), cause, true)]]))
      else None
    case CallErr(t, c) =>
      if Idle(s, t) && Usable(s, c) then Some(s.(stacks := s.stacks[t := [ErrLoad(c)]])) else None
    case CallDone(c) =>
      if Usable(s, c) && s.nodes[c].done.Unmade? && s.nodes[c].lock.None? then
        Some(SetNode(s, c, s.nodes[c].(done := Own(false))))
      else None
    case Derive(t, x) =>
      if Idle(s, t) && Derivable(s, x) then
        var c := |s.ctxs|;
        var u := s.(ctxs := s.ctxs + [x], nodes := s.nodes + [BLANK.(linked := !Cancelable(x))]);
        Some(if Cancelable(x) then u.(stacks := u.stacks[t := [LinkStart(c)]]) else u)
      else None
  }

  const START := State([], [], [], {}, false)
}
