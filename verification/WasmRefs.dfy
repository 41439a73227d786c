/** Reference ids between Go and JavaScript (go/lib/wasm/wasm_exec.js): storing, loading and finalizing values. */
module WasmRefs {
  import opened Options

  /** A JavaScript value; strings, symbols, objects and functions are known by their identity as Map keys. */
  datatype Value =
    | Undefined | NaN | Zero | Null | Bool(b: bool)
    | Number(n: int)                       // a number other than 0 and NaN
    | Object(id: nat) | Str(id: nat) | Symbol(id: nat) | Function(id: nat)

  const GLOBAL_THIS := Object(0)
  const THIS := Object(1)

  /** Eight bytes of Go's memory: a number's own bits, +0 for undefined, or a NaN with a type flag and an id. */
  datatype Ref = Bits(n: int) | PlusZero | Tagged(id: nat, typeFlag: nat)

  /** A reference count; the predefined values have an infinite one. */
  datatype RefCount = Infinity | Finite(n: int)

  function Plus(c: RefCount, d: int): RefCount { if c.Infinity? then c else Finite(c.n + d) }

  const PREDEFINED: seq<Value> := [NaN, Zero, Null, Bool(true), Bool(false), GLOBAL_THIS, THIS]

  function TypeFlag(v: Value): nat {
    match v
    case Object(_) => 1
    case Str(_) => 2
    case Symbol(_) => 3
    case Function(_) => 4
    case _ => 0
  }

  datatype Type =
    | TypeUndefined | TypeNull | TypeBoolean | TypeNumber | TypeString | TypeSymbol | TypeObject | TypeFunction

  function JsType(v: Value): Type {
    match v
    case Undefined => TypeUndefined
    case Null => TypeNull
    case Bool(_) => TypeBoolean
    case NaN => TypeNumber
    case Zero => TypeNumber
    case Number(_) => TypeNumber
    case Object(_) => TypeObject
    case Str(_) => TypeString
    case Symbol(_) => TypeSymbol
    case Function(_) => TypeFunction
  }

  /** Value.Type on the Go side, which knows the predefined ids; None where it panics. */
  function TypeOf(r: Ref): Option<Type> {
    if r.PlusZero? then Some(TypeUndefined)
    else if r == Tagged(2, 0) then Some(TypeNull)
    else if r == Tagged(3, 0) || r == Tagged(4, 0) then Some(TypeBoolean)
    else if r == Tagged(1, 0) || r == Tagged(0, 0) || r.Bits? then Some(TypeNumber)
    else
      match r.typeFlag
      case 1 => Some(TypeObject)
      case 2 => Some(TypeString)
      case 3 => Some(TypeSymbol)
      case 4 => Some(TypeFunction)
      case _ => None
  }

  /** Value.Equal on the Go side. */
  predicate GoEqual(r: Ref, q: Ref) { r == q && r != Tagged(0, 0) }

  // ---------------------------------------------------------------- the tables

  /** `held[id]` is stores less finalizations of a reference with that id. */
  datatype Tables = Tables(
    values: seq<Value>, counts: seq<RefCount>, ids: map<Value, nat>, pool: seq<nat>, held: seq<nat>)

  /** Numbers, NaN and undefined are written without an id of their own. */
  predicate NeedsId(v: Value) { !v.Number? && !v.NaN? && !v.Undefined? }

  predicate Shape(t: Tables) {
    |t.values| == |t.counts| == |t.held| && |t.values| >= |PREDEFINED| && t.values[..|PREDEFINED|] == PREDEFINED
  }

  /** `ids` and `values` are inverse on the ids in use. */
  predicate Inverse(t: Tables)
    requires Shape(t)
  {
    && (forall v :: v in t.ids ==>
          NeedsId(v) && t.ids[v] < |t.values| && t.values[t.ids[v]] == v && t.ids[v] !in t.pool)
    && (forall id :: 0 < id < |t.values| && id !in t.pool ==> t.values[id] in t.ids && t.ids[t.values[id]] == id)
  }

  /** Pooled ids are distinct and not in use. */
  predicate PoolOK(t: Tables)
    requires Shape(t)
  {
    && (forall k :: 0 <= k < |t.pool| ==> |PREDEFINED| <= t.pool[k] < |t.values|)
    && (forall j, k :: 0 <= j < k < |t.pool| ==> t.pool[j] != t.pool[k])
  }

  predicate CountsOK(t: Tables)
    requires Shape(t)
  {
    && (forall id :: 0 <= id < |PREDEFINED| ==> t.counts[id] == Infinity)
    && (forall id ::
          |PREDEFINED| <= id < |t.values| ==> t.counts[id] == Finite(t.held[id]) && (t.held[id] == 0 <==> id in t.pool))
  }

  predicate Inv(t: Tables) { Shape(t) && Inverse(t) && PoolOK(t) && CountsOK(t) }

  /** An id a reference may carry. */
  predicate Live(t: Tables, id: nat) { id < |t.values| == |t.held| && (id < |PREDEFINED| || t.held[id] > 0) }

  /** A value that has an id is stored once more. */
  function Again(t: Tables, v: Value): Tables
    requires Inv(t) && v in t.ids
  {
    var id := t.ids[v];
    t.(counts := t.counts[id := Plus(t.counts[id], 1)], held := t.held[id := t.held[id] + 1])
  }

  lemma AgainKeeps(t: Tables, v: Value)
    requires Inv(t) && v in t.ids
    ensures Inv(Again(t, v))
  {
  }

  /** A value that has none takes the last pooled id, or a new one. */
  function First(t: Tables, v: Value): Tables
    requires Inv(t)
  {
    if t.pool != [] then
      var k := |t.pool| - 1;
      var id := t.pool[k];
      Tables(t.values[id := v], t.counts[id := Finite(1)], t.ids[v := id], t.pool[..k], t.held[id := 1])
    else
      Tables(t.values + [v], t.counts + [Finite(1)], t.ids[v := |t.values|], t.pool, t.held + [1])
  }

  lemma FirstPooled(t: Tables, v: Value)
    requires Inv(t) && v !in t.ids && NeedsId(v) && t.pool != []
    ensures Inv(First(t, v))
  {
    var u := First(t, v);
    var id := t.pool[|t.pool|-1];
    forall i: nat ensures i in u.pool <==> i in t.pool && i != id {
      if i in t.pool && i != id {
        var k :| 0 <= k < |t.pool| && t.pool[k] == i;
        assert u.pool[k] == i;
      }
    }
  }

  lemma FirstNew(t: Tables, v: Value)
    requires Inv(t) && v !in t.ids && NeedsId(v) && t.pool == []
    ensures Inv(First(t, v))
  {
  }

  lemma FirstKeeps(t: Tables, v: Value)
    requires Inv(t) && v !in t.ids && NeedsId(v)
    ensures Inv(First(t, v))
    ensures var u := First(t, v);
      v in u.ids && u.ids[v] < |u.held| == |u.counts| && u.held[u.ids[v]] == 1 && u.counts[u.ids[v]] == Finite(1)
  {
    hide Inverse, CountsOK;
    if t.pool != [] { FirstPooled(t, v); } else { FirstNew(t, v); }
  }

  /** One reference less; the last one frees the id. */
  function Less(t: Tables, id: nat): Tables
    requires Inv(t) && Live(t, id)
  {
    if id < |PREDEFINED| then t
    else if t.held[id] > 1 then
      t.(counts := t.counts[id := Plus(t.counts[id], -1)], held := t.held[id := t.held[id] - 1])
    else
      Tables(t.values[id := Null], t.counts[id := Finite(0)], t.ids - {t.values[id]}, t.pool + [id], t.held[id := 0])
  }

  lemma LessKeeps(t: Tables, id: nat)
    requires Inv(t) && Live(t, id)
    ensures Inv(Less(t, id))
  {
    var u := Less(t, id);
    assert u.pool == t.pool + [id] ==> forall i: nat :: i in u.pool <==> i in t.pool || i == id;
  }

  lemma IdOf(t: Tables, v: Value)
    requires Inv(t) && v in t.ids
    ensures t.ids[v] < |t.values| == |t.counts| == |t.held| && t.values[t.ids[v]] == v && Live(t, t.ids[v])
  {
  }

  /** From the reference Go reads the type of the value. */
  lemma TypeKnown(t: Tables, v: Value)
    requires Inv(t) && v in t.ids
    ensures TypeOf(Tagged(t.ids[v], TypeFlag(v))) == Some(JsType(v)) && t.ids[v] > 0
  {
    Predefined(t);
    assert PREDEFINED[1] == Zero && PREDEFINED[2] == Null && PREDEFINED[3] == Bool(true);
    assert PREDEFINED[4] == Bool(false);
  }

  lemma Predefined(t: Tables)
    requires Inv(t)
    ensures forall v :: v in t.ids ==> NeedsId(v) && t.ids[v] > 0
    ensures forall i :: 0 < i < 5 ==> PREDEFINED[i] in t.ids && t.ids[PREDEFINED[i]] == i
  {
    assert forall i :: 0 <= i < |PREDEFINED| ==> t.values[i] == t.values[..|PREDEFINED|][i] == PREDEFINED[i];
  }

  /** A live id keeps its value until the last of its references is finalized. */
  lemma StoreKeepsValues(t: Tables, v: Value)
    requires Inv(t) && NeedsId(v)
    ensures var u := if v in t.ids then Again(t, v) else First(t, v);
      forall id :: 0 <= id < |t.values| && Live(t, id) ==> Live(u, id) && u.values[id] == t.values[id]
  {
  }

  lemma FinalizeKeepsValues(t: Tables, gone: nat)
    requires Inv(t) && Live(t, gone)
    ensures var u := Less(t, gone);
      forall id :: 0 <= id < |t.values| && Live(u, id) ==> Live(t, id) && u.values[id] == t.values[id]
  {
  }

  const ALL_INFINITE: seq<RefCount> := [Infinity, Infinity, Infinity, Infinity, Infinity, Infinity, Infinity]

  const PREDEFINED_IDS: map<Value, nat> :=
    map[Zero := 1, Null := 2, Bool(true) := 3, Bool(false) := 4, GLOBAL_THIS := 5, THIS := 6]

  lemma StartInv()
    ensures Inv(Tables(PREDEFINED, ALL_INFINITE, PREDEFINED_IDS, [], [0, 0, 0, 0, 0, 0, 0]))
  {
  }

  // ---------------------------------------------------------------- the program

  class Refs {
    var values: seq<Value>
    var goRefCounts: seq<RefCount>
    var ids: map<Value, nat>
    var idPool: seq<nat>
    ghost var held: seq<nat>

    ghost function Now(): Tables
      reads this
    {
      Tables(values, goRefCounts, ids, idPool, held)
    }

    /** Go.run */
    constructor ()
      ensures Inv(Now()) && Sound(Now(), [])
    {
      values := PREDEFINED;
      goRefCounts := ALL_INFINITE;
      ids := PREDEFINED_IDS;
      idPool := [];
      held := [0, 0, 0, 0, 0, 0, 0];
      StartInv();
    }

    /** loadValue */
    function loadValue(r: Ref): Value
      reads this
    {
      match r
      case PlusZero => Undefined
      case Bits(n) => Number(n)
      case Tagged(id, _) => if id < |values| then values[id] else Undefined
    }

    /** storeValue */
    method storeValue(v: Value) returns (r: Ref)
      requires Inv(Now())
      modifies this
      ensures Inv(Now()) && loadValue(r) == v && TypeOf(r) == Some(JsType(v)) && (r.Tagged? && r.id == 0 <==> v.NaN?)
      ensures !NeedsId(v) ==>
        Now() == old(Now()) && r == (if v.Number? then Bits(v.n) else if v.NaN? then Tagged(0, 0) else PlusZero)
      ensures NeedsId(v) ==>
        && v in ids && r == Tagged(ids[v], TypeFlag(v))
        && Now() == if v in old(ids) then Again(old(Now()), v) else First(old(Now()), v)
    {
      hide Inverse, PoolOK, CountsOK;
      if v.Number? { return Bits(v.n); }
      if v.NaN? { return Tagged(0, 0); }
      if v.Undefined? { return PlusZero; }
      ghost var u := if v in ids then Again(Now(), v) else First(Now(), v);
      if v in ids {
        AgainKeeps(Now(), v);
        IdOf(Now(), v);
      } else {
        FirstKeeps(Now(), v);
        IdOf(First(Now(), v), v);
        newId(v);
      }
      var id := ids[v];
      goRefCounts := goRefCounts[id := Plus(goRefCounts[id], 1)];
      held := held[id := held[id] + 1];
      assert goRefCounts == u.counts && held == u.held;
      TypeKnown(u, v);
      return Tagged(id, TypeFlag(v));
    }

    /** An id for a value that has none, with a count of 0. */
    method newId(v: Value)
      requires Inv(Now()) && v !in ids
      modifies this
      ensures var t := First(old(Now()), v); var id := t.ids[v];
        id < |t.counts| == |t.held| && Now() == t.(counts := t.counts[id := Finite(0)], held := t.held[id := 0])
    {
      hide Inverse, CountsOK;
      var id;
      if |idPool| > 0 {
        id := idPool[|idPool|-1];
        idPool := idPool[..|idPool|-1];
        values := values[id := v];
        goRefCounts := goRefCounts[id := Finite(0)];
        held := held[id := 0];
      } else {
        id := |values|;
        values := values + [v];
        goRefCounts := goRefCounts + [Finite(0)];
        held := held + [0];
      }
      ids := ids[v := id];
    }

    /** syscall/js.finalizeRef, of a reference that is still held. */
    method finalizeRef(id: nat)
      requires Inv(Now()) && Live(Now(), id)
      modifies this
      ensures Inv(Now()) && Now() == Less(old(Now()), id)
    {
      LessKeeps(Now(), id);
      goRefCounts := goRefCounts[id := Plus(goRefCounts[id], -1)];
      if goRefCounts[id] == Finite(0) {
        var v := values[id];
        values := values[id := Null];
        ids := ids - {v};
        idPool := idPool + [id];
      }
      if id >= |PREDEFINED| { held := held[id := held[id] - 1]; }
    }
  }

  // ---------------------------------------------------------------- runs

  datatype Op = Store(v: Value) | Finalize(k: nat)

  /** How many of the references carry `id`. */
  function Carrying(refs: seq<(Ref, Value)>, id: nat): nat {
    if refs == [] then 0
    else Carrying(refs[..|refs|-1], id) + if refs[|refs|-1].0.Tagged? && refs[|refs|-1].0.id == id then 1 else 0
  }

  /** Every reference handed out and not finalized loads the value it was made from, and is counted. */
  ghost predicate Sound(t: Tables, refs: seq<(Ref, Value)>) {
    && (forall id :: |PREDEFINED| <= id < |t.held| ==> t.held[id] == Carrying(refs, id))
    && forall k :: 0 <= k < |refs| && refs[k].0.Tagged? ==> Live(t, refs[k].0.id) && t.values[refs[k].0.id] == refs[k].1
  }

  lemma CarryingMore(refs: seq<(Ref, Value)>, x: (Ref, Value), id: nat)
    ensures Carrying(refs + [x], id) == Carrying(refs, id) + if x.0.Tagged? && x.0.id == id then 1 else 0
  {
    assert (refs + [x])[..|refs|] == refs;
  }

  lemma {:induction false} CarryingLess(refs: seq<(Ref, Value)>, k: nat, id: nat)
    requires k < |refs|
    ensures Carrying(refs[..k] + refs[k+1..], id) ==
      Carrying(refs, id) - if refs[k].0.Tagged? && refs[k].0.id == id then 1 else 0
    decreases |refs|
  {
    var last := |refs| - 1;
    if k == last {
      assert refs[..k] + refs[k+1..] == refs[..last];
    } else {
      CarryingLess(refs[..last], k, id);
      assert refs[..last][..k] + refs[..last][k+1..] + [refs[last]] == refs[..k] + refs[k+1..];
      CarryingMore(refs[..last][..k] + refs[..last][k+1..], refs[last], id);
    }
  }

  lemma {:induction false} CarryingNone(refs: seq<(Ref, Value)>, id: nat)
    requires forall k :: 0 <= k < |refs| && refs[k].0.Tagged? ==> refs[k].0.id != id
    ensures Carrying(refs, id) == 0
    decreases |refs|
  {
    if refs != [] { CarryingNone(refs[..|refs|-1], id); }
  }

  lemma {:induction false} CarryingSome(refs: seq<(Ref, Value)>, k: nat)
    requires k < |refs| && refs[k].0.Tagged?
    ensures Carrying(refs, refs[k].0.id) > 0
    decreases |refs|
  {
    if k < |refs| - 1 { CarryingSome(refs[..|refs|-1], k); }
  }

  lemma StoredSound(t: Tables, u: Tables, refs: seq<(Ref, Value)>, r: Ref, v: Value)
    requires Inv(t) && Inv(u) && Sound(t, refs) && NeedsId(v) && u == (if v in t.ids then Again(t, v) else First(t, v))
    requires v in u.ids && r == Tagged(u.ids[v], TypeFlag(v))
    ensures Sound(u, refs + [(r, v)])
  {
    hide Inverse, PoolOK, CountsOK;
    StoreKeepsValues(t, v);
    IdOf(u, v);
    NewHeld(t, u, v);
    forall id | |PREDEFINED| <= id < |u.held| ensures u.held[id] == Carrying(refs + [(r, v)], id) {
      CarryingMore(refs, (r, v), id);
      if id >= |t.held| {
        CarryingNone(refs, id);
      } else {
        assert t.held[id] == Carrying(refs, id);
      }
      assert u.held[id] == HeldBefore(t, id) + if id == u.ids[v] then 1 else 0;
    }
  }

  /** What a store does to the counts. */
  lemma NewHeld(t: Tables, u: Tables, v: Value)
    requires Inv(t) && u == if v in t.ids then Again(t, v) else First(t, v)
    ensures v in u.ids && |t.held| <= |u.held|
    ensures forall id :: 0 <= id < |u.held| ==> u.held[id] == HeldBefore(t, id) + if id == u.ids[v] then 1 else 0
  {
  }

  function HeldBefore(t: Tables, id: nat): nat { if id < |t.held| then t.held[id] else 0 }

  lemma FinalizedSound(t: Tables, refs: seq<(Ref, Value)>, k: nat)
    requires Inv(t) && Sound(t, refs) && k < |refs| && refs[k].0.Tagged? && Live(t, refs[k].0.id)
    ensures Sound(Less(t, refs[k].0.id), refs[..k] + refs[k+1..])
  {
    var gone, rest := refs[k].0.id, refs[..k] + refs[k+1..];
    var u := Less(t, gone);
    FinalizeKeepsValues(t, gone);
    forall id | |PREDEFINED| <= id < |u.held| ensures u.held[id] == Carrying(rest, id) { CarryingLess(refs, k, id); }
    forall j | 0 <= j < |rest| && rest[j].0.Tagged?
      ensures Live(u, rest[j].0.id) && u.values[rest[j].0.id] == rest[j].1
    {
      var i := if j < k then j else j + 1;
      assert rest[j] == refs[i];
      if rest[j].0.id >= |PREDEFINED| { CarryingSome(rest, j); }
    }
  }

  /** The values stored and not finalized: a finalization is of the `k`th, if that has an id to be finalized. */
  function Outstanding(ops: seq<Op>): seq<Value> {
    if ops == [] then []
    else
      var vs := Outstanding(ops[..|ops|-1]);
      match ops[|ops|-1]
      case Store(v) => vs + [v]
      case Finalize(k) => if k < |vs| && !vs[k].Number? && !vs[k].Undefined? then vs[..k] + vs[k+1..] else vs
  }

  /** The most values that were ever outstanding at once. */
  function Most(ops: seq<Op>): nat {
    if ops == [] then 0
    else
      var m, n := Most(ops[..|ops|-1]), |Outstanding(ops)|;
      if m < n then n else m
  }

  /** A reference that carries the id. */
  lemma {:induction false} Carrier(refs: seq<(Ref, Value)>, id: nat) returns (k: nat)
    requires Carrying(refs, id) > 0
    ensures k < |refs| && refs[k].0.Tagged? && refs[k].0.id == id
  {
    k := |refs| - 1;
    if !(refs[k].0.Tagged? && refs[k].0.id == id) { k := Carrier(refs[..k], id); }
  }

  /** Ids that are all carried are no more than the references. */
  lemma {:induction false} EachCarried(refs: seq<(Ref, Value)>, first: nat, n: nat)
    requires forall id: nat :: first <= id < first + n ==> Carrying(refs, id) > 0
    ensures n <= |refs|
  {
    hide Carrying;
    if n > 0 {
      var k := Carrier(refs, first + n - 1);
      var rest := refs[..k] + refs[k+1..];
      forall id: nat | first <= id < first + n - 1 ensures Carrying(rest, id) > 0 { CarryingLess(refs, k, id); }
      EachCarried(rest, first, n - 1);
    }
  }

  /** The tables grow only when no id is free, so each of theirs is held by some reference. */
  lemma NoneFree(t: Tables, refs: seq<(Ref, Value)>)
    requires Inv(t) && Sound(t, refs) && t.pool == []
    ensures |t.values| <= |PREDEFINED| + |refs|
  {
    hide Carrying;
    EachCarried(refs, |PREDEFINED|, |t.values| - |PREDEFINED|);
  }

  /** Finalizing frees ids, and a store takes a free one if there is any. */
  lemma Growth(t: Tables, v: Value, id: nat)
    requires Inv(t)
    ensures |First(t, v).values| == |t.values| + if t.pool == [] then 1 else 0
    ensures v in t.ids ==> |Again(t, v).values| == |t.values|
    ensures Live(t, id) ==> |Less(t, id).values| == |t.values|
  {
  }

  lemma MostLonger(ops: seq<Op>, op: Op)
    ensures Most(ops + [op]) >= Most(ops) && Most(ops + [op]) >= |Outstanding(ops + [op])|
  {
    assert (ops + [op])[..|ops|] == ops;
  }

  predicate OfValues(refs: seq<(Ref, Value)>, vs: seq<Value>) {
    |refs| == |vs| && forall k :: 0 <= k < |refs| ==> refs[k].1 == vs[k]
  }

  lemma OutstandingMore(ops: seq<Op>, i: nat)
    requires i < |ops|
    ensures Outstanding(ops[..i+1]) == Outstanding(ops[..i] + [ops[i]]) && (ops[..i] + [ops[i]])[..i] == ops[..i]
  {
    assert ops[..i+1] == ops[..i] + [ops[i]];
  }

  lemma NoneYet()
    ensures Outstanding([]) == []
  {
  }

  method runOne(js: Refs, op: Op, was: seq<(Ref, Value)>, ghost before: seq<Op>) returns (refs: seq<(Ref, Value)>)
    requires Inv(js.Now()) && Sound(js.Now(), was) && Faithful(was) && OfValues(was, Outstanding(before))
    modifies js
    ensures Inv(js.Now()) && Sound(js.Now(), refs) && Faithful(refs) && OfValues(refs, Outstanding(before + [op]))
    ensures |js.values| <= old(|js.values|) || |js.values| <= |PREDEFINED| + |refs|
  {
    hide Inv, Live, Sound;
    assert (before + [op])[..|before|] == before;
    ghost var t := js.Now();
    if t.pool == [] { NoneFree(t, was); }
    refs := was;
    match op
    case Store(v) =>
      var r := js.storeValue(v);
      Growth(t, v, 0);
      if NeedsId(v) {
        StoredSound(t, js.Now(), refs, r, v);
      } else if v.NaN? {
        NaNSound(t, refs);
      } else {
        PlainSound(t, refs, r, v);
      }
      refs := refs + [(r, v)];
    case Finalize(k) =>
      if k < |refs| && refs[k].0.Tagged? {
        HeldIsLive(t, refs, k);
        js.finalizeRef(refs[k].0.id);
        Growth(t, NaN, refs[k].0.id);
        FinalizedSound(t, refs, k);
        refs := refs[..k] + refs[k+1..];
      }
  }

  /**
    Any stores and finalizations in any order: what is stored and not finalized, no more and no less, loads as it was
    stored, and the tables do not outgrow the most that was ever held at once.
   */
  method runAll(js: Refs, ops: seq<Op>) returns (refs: seq<(Ref, Value)>)
    requires Inv(js.Now()) && Sound(js.Now(), [])
    modifies js
    ensures Inv(js.Now()) && Sound(js.Now(), refs)
    ensures OfValues(refs, Outstanding(ops)) && forall k :: 0 <= k < |refs| ==> js.loadValue(refs[k].0) == refs[k].1
    ensures forall k :: 0 <= k < |refs| ==> TypeOf(refs[k].0) == Some(JsType(refs[k].1))
    ensures forall j, k :: 0 <= j < |refs| && 0 <= k < |refs| ==>
      (GoEqual(refs[j].0, refs[k].0) <==> refs[j].1 == refs[k].1 && !refs[j].1.NaN?)
    ensures |js.values| <= old(|js.values|) || |js.values| <= |PREDEFINED| + Most(ops)
  {
    hide Inv, Live, Sound, Outstanding, Most;
    NoneYet();
    refs := [];
    var i := 0;
    while i < |ops|
      invariant i <= |ops| && Inv(js.Now()) && Sound(js.Now(), refs) && Faithful(refs)
      invariant OfValues(refs, Outstanding(ops[..i]))
      invariant |js.values| <= old(|js.values|) || |js.values| <= |PREDEFINED| + Most(ops[..i])
      decreases |ops| - i
    {
      OutstandingMore(ops, i);
      assert ops[..i+1] == ops[..i] + [ops[i]];
      MostLonger(ops[..i], ops[i]);
      refs := runOne(js, ops[i], refs, ops[..i]);
      i := i + 1;
    }
    assert ops[..i] == ops;
    forall k | 0 <= k < |refs| ensures js.loadValue(refs[k].0) == refs[k].1 {
      if refs[k].0.Tagged? { HeldIsLive(js.Now(), refs, k); }
    }
    forall k | 0 <= k < |refs| ensures TypeOf(refs[k].0) == Some(JsType(refs[k].1)) { HeldType(js.Now(), refs, k); }
    forall j, k | 0 <= j < |refs| && 0 <= k < |refs|
      ensures GoEqual(refs[j].0, refs[k].0) <==> refs[j].1 == refs[k].1 && !refs[j].1.NaN?
    {
      HeldEqual(js.Now(), refs, j, k);
    }
  }

  /** A reference that is held has the id of its value. */
  lemma HeldId(t: Tables, refs: seq<(Ref, Value)>, k: nat)
    requires Inv(t) && Sound(t, refs) && Faithful(refs) && k < |refs| && refs[k].0.Tagged? && refs[k].0.id > 0
    ensures refs[k].1 in t.ids && refs[k].0 == Tagged(t.ids[refs[k].1], TypeFlag(refs[k].1))
  {
    HeldIsLive(t, refs, k);
  }

  lemma HeldType(t: Tables, refs: seq<(Ref, Value)>, k: nat)
    requires Inv(t) && Sound(t, refs) && Faithful(refs) && k < |refs|
    ensures TypeOf(refs[k].0) == Some(JsType(refs[k].1))
  {
    hide Inv, Sound;
    if refs[k].0.Tagged? && refs[k].0.id > 0 {
      HeldId(t, refs, k);
      TypeKnown(t, refs[k].1);
    }
  }

  /** References are equal to Go exactly where their values are to JavaScript. */
  lemma HeldEqual(t: Tables, refs: seq<(Ref, Value)>, j: nat, k: nat)
    requires Inv(t) && Sound(t, refs) && Faithful(refs) && j < |refs| && k < |refs|
    ensures GoEqual(refs[j].0, refs[k].0) <==> refs[j].1 == refs[k].1 && !refs[j].1.NaN?
  {
    hide Sound;
    if refs[j].0.Tagged? && refs[j].0.id > 0 { HeldId(t, refs, j); HeldIsLive(t, refs, j); }
    if refs[k].0.Tagged? && refs[k].0.id > 0 { HeldId(t, refs, k); HeldIsLive(t, refs, k); }
  }

  /** References without an id carry their value themselves. */
  predicate Faithful(refs: seq<(Ref, Value)>) {
    forall k :: 0 <= k < |refs| ==> match refs[k].0
      case Bits(n) => refs[k].1 == Number(n)
      case PlusZero => refs[k].1 == Undefined
      case Tagged(id, flag) =>
        !refs[k].1.Number? && !refs[k].1.Undefined? && flag == TypeFlag(refs[k].1) && (id == 0 <==> refs[k].1.NaN?)
  }

  lemma HeldIsLive(t: Tables, refs: seq<(Ref, Value)>, k: nat)
    requires Inv(t) && Sound(t, refs) && k < |refs| && refs[k].0.Tagged?
    ensures Live(t, refs[k].0.id) && refs[k].0.id < |t.values| && t.values[refs[k].0.id] == refs[k].1
  {
  }

  /** NaN is written as a reference with the id it has from the start. */
  lemma NaNSound(t: Tables, refs: seq<(Ref, Value)>)
    requires Inv(t) && Sound(t, refs)
    ensures Sound(t, refs + [(Tagged(0, 0), NaN)])
  {
    forall id: nat | id > 0
      ensures Carrying(refs + [(Tagged(0, 0), NaN)], id) == Carrying(refs, id)
    {
      CarryingMore(refs, (Tagged(0, 0), NaN), id);
    }
    assert t.values[0] == NaN;
  }

  lemma PlainSound(t: Tables, refs: seq<(Ref, Value)>, r: Ref, v: Value)
    requires Sound(t, refs) && !r.Tagged?
    ensures Sound(t, refs + [(r, v)])
  {
    forall id: nat ensures Carrying(refs + [(r, v)], id) == Carrying(refs, id) { CarryingMore(refs, (r, v), id); }
  }
}
