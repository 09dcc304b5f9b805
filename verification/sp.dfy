/** `rtt_dsxx::SP`, the reference-counting smart pointer, as a transition
    system over a heap of live handles. A handle is the pair (raw pointer,
    counter); counters live in a map from counter id to reference count, and
    every `delete` of a pointed-to object is appended to a log. Variables are
    positions in `vars`: a constructor appends a handle, a destructor removes
    one. */
module SmartPointer {
  import opened Wrappers

  /** A raw pointer: NULL or the address of some object. */
  datatype Ptr = Null | Obj(id: nat)

  /** One smart pointer: the raw pointer `p_` and the counter `r_` (None is a
      NULL counter). */
  datatype SP = SP(p: Ptr, r: Option<nat>)

  /** Every live handle, the live counters with their `refs`, the next unused
      counter id, and the objects deleted so far, in order. */
  datatype Heap = Heap(vars: seq<SP>, refs: map<nat, int>, next: nat, deleted: seq<Ptr>)

  /** No handles, no counters, nothing deleted. */
  const Initial := Heap([], map[], 0, [])

  function Holds(x: SP, c: nat): nat
  {
    if x.r == Some(c) then 1 else 0
  }

  /** The number of handles in `vs` that hold counter `c`. */
  function Count(vs: seq<SP>, c: nat): nat
  {
    if vs == [] then 0 else Count(vs[..|vs| - 1], c) + Holds(vs[|vs| - 1], c)
  }

  /** The class invariant: each counter's `refs` is the number of live
      handles holding it and is at least 1, no live handle holds a released
      counter, and a non-NULL pointer always comes with a counter. */
  predicate Inv(h: Heap)
  {
    && (forall i :: 0 <= i < |h.vars| && h.vars[i].r.Some? ==> h.vars[i].r.value in h.refs)
    && (forall i :: 0 <= i < |h.vars| && h.vars[i].p != Null ==> h.vars[i].r.Some?)
    && (forall c :: c in h.refs ==> c < h.next && h.refs[c] == Count(h.vars, c) && h.refs[c] >= 1)
  }

  // ---- counting ----

  lemma CountAppend(vs: seq<SP>, x: SP)
    ensures forall c :: Count(vs + [x], c) == Count(vs, c) + Holds(x, c)
  {
    assert (vs + [x])[..|vs|] == vs;
  }

  lemma {:induction false} CountUpdate(vs: seq<SP>, i: nat, x: SP, c: nat)
    requires i < |vs|
    ensures Count(vs[i := x], c) + Holds(vs[i], c) == Count(vs, c) + Holds(x, c)
    decreases |vs|
  {
    var n := |vs| - 1;
    if i == n {
      assert vs[i := x][..n] == vs[..n];
    } else {
      assert vs[i := x][..n] == vs[..n][i := x];
      CountUpdate(vs[..n], i, x, c);
    }
  }

  lemma {:induction false} CountRemove(vs: seq<SP>, i: nat, c: nat)
    requires i < |vs|
    ensures Count(vs[..i] + vs[i + 1..], c) + Holds(vs[i], c) == Count(vs, c)
    decreases |vs|
  {
    var n := |vs| - 1;
    if i == n {
      assert vs[..i] + vs[i + 1..] == vs[..n];
    } else {
      var w := vs[..i] + vs[i + 1..];
      assert w[..|w| - 1] == vs[..n][..i] + vs[..n][i + 1..];
      assert w[|w| - 1] == vs[n];
      CountRemove(vs[..n], i, c);
    }
  }

  /** A counter nobody holds has count zero; one somebody holds has a
      positive count. */
  lemma {:induction false} CountHeld(vs: seq<SP>, c: nat)
    ensures Count(vs, c) == 0 <==> forall i :: 0 <= i < |vs| ==> vs[i].r != Some(c)
    decreases |vs|
  {
    if vs != [] {
      var n := |vs| - 1;
      CountHeld(vs[..n], c);
      assert forall i :: 0 <= i < n ==> vs[..n][i] == vs[i];
    }
  }

  // ---- queries ----

  /** `use_count()`: 0 for a NULL counter, else the number of live handles
      sharing this one's counter. */
  function UseCount(h: Heap, i: nat): (n: int)
    requires Inv(h) && i < |h.vars|
    ensures n == if h.vars[i].r.Some? then Count(h.vars, h.vars[i].r.value) else 0
    ensures h.vars[i].r.Some? ==> n >= 1
  {
    match h.vars[i].r
    case None => 0
    case Some(c) => h.refs[c]
  }

  /** `unique()`: this is the only live handle on its counter. */
  function Unique(h: Heap, i: nat): (b: bool)
    requires Inv(h) && i < |h.vars|
    ensures b <==> UseCount(h, i) == 1
    ensures b <==> h.vars[i].r.Some? && forall j :: 0 <= j < |h.vars| && j != i ==> h.vars[j].r != h.vars[i].r
  {
    match h.vars[i].r
    case None => false
    case Some(c) =>
      var w := h.vars[..i] + h.vars[i + 1..];
      CountRemove(h.vars, i, c);
      CountHeld(w, c);
      assert forall j :: 0 <= j < |h.vars| && j != i ==> h.vars[j] == w[if j < i then j else j - 1];
      h.refs[c] == 1
  }

  /** `get()` */
  function Get(h: Heap, i: nat): Ptr
    requires i < |h.vars|
  {
    h.vars[i].p
  }

  /** `operator bool` */
  predicate IsSet(h: Heap, i: nat)
    requires i < |h.vars|
  {
    Get(h, i) != Null
  }

  /** `operator==` between two smart pointers compares raw pointers only. */
  predicate SameTarget(h: Heap, i: nat, j: nat)
    requires i < |h.vars| && j < |h.vars|
  {
    Get(h, i) == Get(h, j)
  }

  /** `operator==` between a raw pointer and a smart pointer, either order;
      `operator!=` is its negation. */
  predicate PointsTo(h: Heap, i: nat, p: Ptr)
    requires i < |h.vars|
  {
    Get(h, i) == p
  }

  // ---- transitions ----

  /** The counters other than `c` are untouched from `h` to `r`. */
  predicate OthersKept(h: Heap, r: Heap, c: Option<nat>)
  {
    forall d :: d in h.refs && Some(d) != c ==> d in r.refs && r.refs[d] == h.refs[d]
  }

  /** Default constructor: a NULL pointer with a NULL counter. */
  function Declare(h: Heap): (r: Heap)
    requires Inv(h)
    ensures Inv(r) && |r.vars| == |h.vars| + 1 && r.vars[..|h.vars|] == h.vars
    ensures Get(r, |h.vars|) == Null && UseCount(r, |h.vars|) == 0
    ensures r.refs == h.refs && r.deleted == h.deleted
  {
    var x := SP(Null, None);
    CountAppend(h.vars, x);
    h.(vars := h.vars + [x])
  }

  /** Binding a raw pointer (the explicit constructor): a fresh counter at 1,
      also for NULL. */
  function Bind(h: Heap, p: Ptr): (r: Heap)
    requires Inv(h)
    ensures Inv(r) && |r.vars| == |h.vars| + 1 && r.vars[..|h.vars|] == h.vars
    ensures Get(r, |h.vars|) == p && Unique(r, |h.vars|)
    ensures r.vars[|h.vars|].r.Some? && r.vars[|h.vars|].r.value !in h.refs
    ensures OthersKept(h, r, None) && r.deleted == h.deleted
  {
    var c := h.next;
    var x := SP(p, Some(c));
    CountAppend(h.vars, x);
    CountHeld(h.vars, c);
    h.(vars := h.vars + [x], refs := h.refs[c := 1], next := c + 1)
  }

  /** Copy construction, from the same or a convertible type: share pointer
      and counter, counting one more user when the counter is not NULL. */
  function Copy(h: Heap, i: nat): (r: Heap)
    requires Inv(h) && i < |h.vars|
    ensures Inv(r) && |r.vars| == |h.vars| + 1 && r.vars[..|h.vars|] == h.vars
    ensures r.vars[|h.vars|] == h.vars[i]
    ensures h.vars[i].r.Some? ==> UseCount(r, |h.vars|) == UseCount(h, i) + 1
    ensures h.vars[i].r.None? ==> r.refs == h.refs
    ensures OthersKept(h, r, h.vars[i].r) && r.deleted == h.deleted
  {
    var x := h.vars[i];
    CountAppend(h.vars, x);
    match x.r
    case None => h.(vars := h.vars + [x])
    case Some(c) => h.(vars := h.vars + [x], refs := h.refs[c := h.refs[c] + 1])
  }

  /** `dynamic_pointer_cast`; `ok` says whether the object is of the target
      type. A successful cast shares the counter like a copy; otherwise the
      result is empty and no count changes. */
  function Cast(h: Heap, i: nat, ok: bool): (r: Heap)
    requires Inv(h) && i < |h.vars|
    ensures Inv(r) && |r.vars| == |h.vars| + 1 && r.vars[..|h.vars|] == h.vars
    ensures ok && h.vars[i].p != Null ==>
              r.vars[|h.vars|] == h.vars[i] && UseCount(r, |h.vars|) == UseCount(h, i) + 1
    ensures !(ok && h.vars[i].p != Null) ==>
              r.vars[|h.vars|] == SP(Null, None) && r.refs == h.refs
    ensures r.deleted == h.deleted
  {
    if ok && h.vars[i].p != Null then Copy(h, i) else Declare(h)
  }

  /** `swap`: exchange pointer and counter of two handles. */
  function Swap(h: Heap, i: nat, j: nat): (r: Heap)
    requires Inv(h) && i < |h.vars| && j < |h.vars|
    ensures Inv(r) && |r.vars| == |h.vars|
    ensures r.vars[i] == h.vars[j] && r.vars[j] == h.vars[i]
    ensures forall k :: 0 <= k < |h.vars| && k != i && k != j ==> r.vars[k] == h.vars[k]
    ensures r.refs == h.refs && r.next == h.next && r.deleted == h.deleted
  {
    var vs := h.vars[i := h.vars[j]][j := h.vars[i]];
    forall c ensures Count(vs, c) == Count(h.vars, c) {
      CountUpdate(h.vars, i, h.vars[j], c);
      CountUpdate(h.vars[i := h.vars[j]], j, h.vars[i], c);
    }
    h.(vars := vs)
  }

  /** The private `free()`: one user fewer on `x`'s counter; when none is
      left, the object and the counter are deleted. */
  function Release(h: Heap, x: SP): (r: Heap)
    requires x.r.Some? ==> x.r.value in h.refs
    ensures r.vars == h.vars && r.next == h.next && OthersKept(h, r, x.r)
    ensures forall d :: d in r.refs ==> d in h.refs
    ensures x.r.None? ==> r == h
    ensures x.r.Some? ==>
              var c := x.r.value;
              && (c !in r.refs <==> h.refs[c] - 1 == 0)
              && (c in r.refs ==> r.refs[c] == h.refs[c] - 1 && r.deleted == h.deleted)
              && (c !in r.refs ==> r.deleted == h.deleted + [x.p])
  {
    match x.r
    case None => h
    case Some(c) =>
      var n := h.refs[c] - 1;
      if n == 0 then h.(refs := h.refs - {c}, deleted := h.deleted + [x.p])
      else h.(refs := h.refs[c := n])
  }

  /** Destructor: release the handle's share, then the handle is gone. The
      object is deleted exactly when this was its last handle. */
  function Destroy(h: Heap, i: nat): (r: Heap)
    requires Inv(h) && i < |h.vars|
    ensures Inv(r) && r.vars == h.vars[..i] + h.vars[i + 1..]
    ensures OthersKept(h, r, h.vars[i].r)
    ensures Unique(h, i) ==> h.vars[i].r.value !in r.refs && r.deleted == h.deleted + [h.vars[i].p]
    ensures !Unique(h, i) ==> r.deleted == h.deleted
    ensures !Unique(h, i) && h.vars[i].r.Some? ==>
              var c := h.vars[i].r.value; c in r.refs && r.refs[c] == h.refs[c] - 1
  {
    var vs := h.vars[..i] + h.vars[i + 1..];
    forall c ensures Count(vs, c) + Holds(h.vars[i], c) == Count(h.vars, c) {
      CountRemove(h.vars, i, c);
    }
    assert forall k :: 0 <= k < |vs| ==> vs[k] == h.vars[if k < i then k else k + 1];
    var u := Unique(h, i);
    Release(h, h.vars[i]).(vars := vs)
  }

  /** `operator=`, from the same or a convertible type: copy the source into
      a temporary, swap it with the target, destroy the temporary. */
  function Assign(h: Heap, i: nat, j: nat): (r: Heap)
    requires Inv(h) && i < |h.vars| && j < |h.vars|
    ensures Inv(r) && r.vars == h.vars[i := h.vars[j]]
    ensures h.vars[i].r == h.vars[j].r ==> r.refs == h.refs && r.deleted == h.deleted
    ensures h.vars[i].r != h.vars[j].r && h.vars[j].r.Some? ==> UseCount(r, i) == UseCount(h, j) + 1
    ensures h.vars[i].r != h.vars[j].r ==>
              && (Unique(h, i) ==> r.deleted == h.deleted + [h.vars[i].p])
              && (!Unique(h, i) ==> r.deleted == h.deleted)
    ensures h.vars[i].r != h.vars[j].r && h.vars[i].r.Some? ==>
              var c := h.vars[i].r.value;
              && (Unique(h, i) <==> c !in r.refs)
              && (c in r.refs ==> r.refs[c] == h.refs[c] - 1)
  {
    var t := |h.vars|;
    var h1 := Copy(h, j);
    var h2 := Swap(h1, i, t);
    assert h2.vars[..t] == h.vars[i := h.vars[j]];
    assert h.vars[i].r != h.vars[j].r ==> (Unique(h2, t) <==> Unique(h, i));
    Destroy(h2, t)
  }

  /** `reset()`: swap with a default-constructed temporary and destroy it. */
  function Reset(h: Heap, i: nat): (r: Heap)
    requires Inv(h) && i < |h.vars|
    ensures Inv(r) && r.vars == h.vars[i := SP(Null, None)] && UseCount(r, i) == 0
    ensures OthersKept(h, r, h.vars[i].r)
    ensures h.vars[i].r.Some? ==>
              var c := h.vars[i].r.value;
              && (Unique(h, i) <==> c !in r.refs)
              && (c in r.refs ==> r.refs[c] == h.refs[c] - 1)
    ensures Unique(h, i) ==> r.deleted == h.deleted + [h.vars[i].p]
    ensures !Unique(h, i) ==> r.deleted == h.deleted
  {
    var t := |h.vars|;
    var h1 := Declare(h);
    var h2 := Swap(h1, i, t);
    assert h2.vars[..t] == h.vars[i := SP(Null, None)];
    assert Unique(h2, t) <==> Unique(h, i);
    Destroy(h2, t)
  }

  /** `reset(p)`: release the old share, then hold `p` under a fresh counter
      at 1. */
  function ResetTo(h: Heap, i: nat, p: Ptr): (r: Heap)
    requires Inv(h) && i < |h.vars|
    ensures Inv(r) && |r.vars| == |h.vars| && r.vars == h.vars[i := r.vars[i]]
    ensures Get(r, i) == p && Unique(r, i) && r.vars[i].r.value !in h.refs
    ensures OthersKept(h, r, h.vars[i].r)
    ensures Unique(h, i) ==> r.deleted == h.deleted + [h.vars[i].p]
    ensures !Unique(h, i) ==> r.deleted == h.deleted
  {
    var u := Unique(h, i);
    var h1 := Release(h, h.vars[i]);
    var c := h1.next;
    var x := SP(p, Some(c));
    var vs := h.vars[i := x];
    forall d ensures Count(vs, d) + Holds(h.vars[i], d) == Count(h.vars, d) + Holds(x, d) {
      CountUpdate(h.vars, i, x, d);
    }
    CountHeld(h.vars, c);
    h1.(vars := vs, refs := h1.refs[c := 1], next := c + 1)
  }

  // ---- properties ----

  /** Self-assignment, or assignment between handles that are already equal,
      changes nothing at all. */
  lemma SelfAssignUnchanged(h: Heap, i: nat, j: nat)
    requires Inv(h) && i < |h.vars| && j < |h.vars| && h.vars[i] == h.vars[j]
    ensures Assign(h, i, j) == h
  {
    var r := Assign(h, i, j);
    assert r.vars == h.vars;
    assert r.refs == h.refs;
  }

  /** A handle bound to NULL still owns a counter: it is counted once, yet
      tests false and equals NULL. */
  lemma NullBindCounted(h: Heap)
    requires Inv(h)
    ensures var r := Bind(h, Null);
            UseCount(r, |h.vars|) == 1 && !IsSet(r, |h.vars|) && PointsTo(r, |h.vars|, Null)
  {
  }

  /** A copy compares equal to its source and raises the shared count. */
  lemma CopyShares(h: Heap, i: nat)
    requires Inv(h) && i < |h.vars| && IsSet(h, i)
    ensures var r := Copy(h, i);
            SameTarget(r, i, |h.vars|) && UseCount(r, i) == UseCount(h, i) + 1
            && UseCount(r, |h.vars|) == UseCount(r, i) && !Unique(r, i)
  {
    var r := Copy(h, i);
    assert r.vars[i] == h.vars[i];
  }

  /** One program step on the handles: every operation of the class. */
  datatype Op =
    | DeclareOp
    | BindOp(p: Ptr)
    | CopyOp(src: nat)
    | CastOp(src: nat, ok: bool)
    | SwapOp(a: nat, b: nat)
    | AssignOp(dst: nat, src: nat)
    | ResetOp(dst: nat)
    | ResetToOp(dst: nat, p: Ptr)
    | DestroyOp(dst: nat)

  /** The operation names only live handles. */
  predicate Enabled(h: Heap, op: Op)
  {
    match op
    case DeclareOp => true
    case BindOp(_) => true
    case CopyOp(i) => i < |h.vars|
    case CastOp(i, _) => i < |h.vars|
    case SwapOp(i, j) => i < |h.vars| && j < |h.vars|
    case AssignOp(i, j) => i < |h.vars| && j < |h.vars|
    case ResetOp(i) => i < |h.vars|
    case ResetToOp(i, _) => i < |h.vars|
    case DestroyOp(i) => i < |h.vars|
  }

  function Step(h: Heap, op: Op): (r: Heap)
    requires Inv(h) && Enabled(h, op)
    ensures Inv(r)
  {
    match op
    case DeclareOp => Declare(h)
    case BindOp(p) => Bind(h, p)
    case CopyOp(i) => Copy(h, i)
    case CastOp(i, ok) => Cast(h, i, ok)
    case SwapOp(i, j) => Swap(h, i, j)
    case AssignOp(i, j) => Assign(h, i, j)
    case ResetOp(i) => Reset(h, i)
    case ResetToOp(i, p) => ResetTo(h, i, p)
    case DestroyOp(i) => Destroy(h, i)
  }

  /** Run a program from `h`; None when some step names a handle that does
      not exist. Every state reached keeps the counting invariant. */
  function Run(h: Heap, ops: seq<Op>): (r: Option<Heap>)
    requires Inv(h)
    ensures r.Some? ==> Inv(r.value)
    decreases |ops|
  {
    if ops == [] then Some(h)
    else if !Enabled(h, ops[0]) then None
    else Run(Step(h, ops[0]), ops[1..])
  }

  // ---- ownership ----

  /** No live handle points to a deleted object, and handles that point to
      the same object share its counter. */
  predicate Safe(h: Heap)
  {
    && (forall i :: 0 <= i < |h.vars| && h.vars[i].p != Null ==> h.vars[i].p !in h.deleted)
    && (forall i, j :: 0 <= i < |h.vars| && 0 <= j < |h.vars| && h.vars[i].p != Null && h.vars[i].p == h.vars[j].p
          ==> h.vars[i].r == h.vars[j].r)
  }

  /** Binding `p` hands all rights over to the smart pointer: `p` is NULL or
      an object that is live and that no handle holds yet. */
  predicate Owns(h: Heap, p: Ptr)
  {
    p == Null || (p !in h.deleted && forall i :: 0 <= i < |h.vars| ==> h.vars[i].p != p)
  }

  /** The usage rule of the class: raw pointers are bound only when owned. */
  predicate Disciplined(h: Heap, op: Op)
  {
    match op
    case BindOp(p) => Owns(h, p)
    case ResetToOp(_, p) => Owns(h, p)
    case _ => true
  }

  /** Every step of `ops` from `h` that runs follows the usage rule. */
  predicate Obeys(h: Heap, ops: seq<Op>)
    requires Inv(h)
    decreases |ops|
  {
    ops == [] || !Enabled(h, ops[0]) || (Disciplined(h, ops[0]) && Obeys(Step(h, ops[0]), ops[1..]))
  }

  lemma AppendSafe(h: Heap, r: Heap, x: SP, i: nat)
    requires Safe(h) && i < |h.vars| && x == h.vars[i]
    requires r.vars == h.vars + [x] && r.deleted == h.deleted
    ensures Safe(r)
  {
    assert forall k :: 0 <= k < |h.vars| ==> r.vars[k] == h.vars[k];
  }

  lemma DestroySafe(h: Heap, i: nat)
    requires Inv(h) && Safe(h) && i < |h.vars|
    ensures Safe(Destroy(h, i))
  {
    var r := Destroy(h, i);
    assert forall k :: 0 <= k < |r.vars| ==> r.vars[k] == h.vars[if k < i then k else k + 1];
    forall a, b | 0 <= a < |r.vars| && 0 <= b < |r.vars| && r.vars[a].p != Null && r.vars[a].p == r.vars[b].p
      ensures r.vars[a].r == r.vars[b].r
    {
      assert r.vars[a] == h.vars[if a < i then a else a + 1];
      assert r.vars[b] == h.vars[if b < i then b else b + 1];
    }
    if Unique(h, i) {
      forall k | 0 <= k < |r.vars| && r.vars[k].p != Null
        ensures r.vars[k].p !in r.deleted
      {
        var k' := if k < i then k else k + 1;
        assert r.vars[k] == h.vars[k'] && k' != i;
      }
    }
  }

  lemma SwapSafe(h: Heap, i: nat, j: nat)
    requires Inv(h) && Safe(h) && i < |h.vars| && j < |h.vars|
    ensures Safe(Swap(h, i, j))
  {
    var r := Swap(h, i, j);
    forall k | 0 <= k < |r.vars| && r.vars[k].p != Null
      ensures r.vars[k].p !in r.deleted
    {
      var k' := if k == i then j else if k == j then i else k;
      assert r.vars[k] == h.vars[k'];
    }
    forall a, b | 0 <= a < |r.vars| && 0 <= b < |r.vars| && r.vars[a].p != Null && r.vars[a].p == r.vars[b].p
      ensures r.vars[a].r == r.vars[b].r
    {
      var a' := if a == i then j else if a == j then i else a;
      var b' := if b == i then j else if b == j then i else b;
      assert r.vars[a] == h.vars[a'] && r.vars[b] == h.vars[b'];
    }
  }

  lemma ResetToSafe(h: Heap, i: nat, p: Ptr)
    requires Inv(h) && Safe(h) && i < |h.vars| && Owns(h, p)
    ensures Safe(ResetTo(h, i, p))
  {
    var r := ResetTo(h, i, p);
    forall k | 0 <= k < |r.vars| && k != i && r.vars[k].p != Null
      ensures r.vars[k].p !in r.deleted
    {
      assert r.vars[k] == h.vars[k];
    }
  }

  /** A new empty handle keeps the handles safe. */
  lemma DeclareSafe(h: Heap)
    requires Inv(h) && Safe(h)
    ensures Safe(Declare(h))
  {
    var r := Declare(h);
    assert forall k :: 0 <= k < |h.vars| ==> r.vars[k] == h.vars[k];
  }

  /** Binding an owned raw pointer keeps the handles safe. */
  lemma BindSafe(h: Heap, p: Ptr)
    requires Inv(h) && Safe(h) && Owns(h, p)
    ensures Safe(Bind(h, p))
  {
    var r := Bind(h, p);
    assert forall k :: 0 <= k < |h.vars| ==> r.vars[k] == h.vars[k];
  }

  /** A cast result, empty or sharing its source, keeps the handles safe. */
  lemma CastSafe(h: Heap, i: nat, ok: bool)
    requires Inv(h) && Safe(h) && i < |h.vars|
    ensures Safe(Cast(h, i, ok))
  {
    var r := Cast(h, i, ok);
    assert forall k :: 0 <= k < |h.vars| ==> r.vars[k] == h.vars[k];
  }

  /** Assignment, as copy-and-swap, keeps the handles safe. */
  lemma AssignSafe(h: Heap, i: nat, j: nat)
    requires Inv(h) && Safe(h) && i < |h.vars| && j < |h.vars|
    ensures Safe(Assign(h, i, j))
  {
    var t := |h.vars|;
    var h1 := Copy(h, j);
    AppendSafe(h, h1, h.vars[j], j);
    SwapSafe(h1, i, t);
    DestroySafe(Swap(h1, i, t), t);
  }

  /** reset(), as swap with an empty handle, keeps the handles safe. */
  lemma ResetSafe(h: Heap, i: nat)
    requires Inv(h) && Safe(h) && i < |h.vars|
    ensures Safe(Reset(h, i))
  {
    var t := |h.vars|;
    var h1 := Declare(h);
    assert forall k :: 0 <= k < t ==> h1.vars[k] == h.vars[k];
    SwapSafe(h1, i, t);
    DestroySafe(Swap(h1, i, t), t);
  }

  /** Each step keeps the handles safe when it follows the usage rule. */
  lemma StepSafe(h: Heap, op: Op)
    requires Inv(h) && Safe(h) && Enabled(h, op) && Disciplined(h, op)
    ensures Safe(Step(h, op))
  {
    match op
    case DeclareOp =>
      DeclareSafe(h);
    case BindOp(p) =>
      BindSafe(h, p);
    case CopyOp(i) =>
      AppendSafe(h, Copy(h, i), h.vars[i], i);
    case CastOp(i, ok) =>
      CastSafe(h, i, ok);
    case SwapOp(i, j) =>
      SwapSafe(h, i, j);
    case AssignOp(i, j) =>
      AssignSafe(h, i, j);
    case ResetOp(i) =>
      ResetSafe(h, i);
    case ResetToOp(i, p) =>
      ResetToSafe(h, i, p);
    case DestroyOp(i) =>
      DestroySafe(h, i);
  }

  /** A program that binds only pointers it owns never leaves a live handle
      on a deleted object. */
  lemma {:induction false} RunSafe(h: Heap, ops: seq<Op>)
    requires Inv(h) && Safe(h) && Obeys(h, ops)
    ensures Run(h, ops).Some? ==> Safe(Run(h, ops).value)
    decreases |ops|
  {
    if ops != [] && Enabled(h, ops[0]) {
      StepSafe(h, ops[0]);
      RunSafe(Step(h, ops[0]), ops[1..]);
    }
  }

  /** Stepping through a program one enabled operation at a time. */
  lemma RunFirst(h: Heap, ops: seq<Op>)
    requires Inv(h) && ops != [] && Enabled(h, ops[0])
    ensures Run(h, ops) == Run(Step(h, ops[0]), ops[1..])
  {
  }

  /** The handles after binding one object twice and destroying the first
      handle. */
  lemma DoubleBindState()
    ensures Inv(Bind(Initial, Obj(0))) && Inv(Bind(Bind(Initial, Obj(0)), Obj(0)))
    ensures Destroy(Bind(Bind(Initial, Obj(0)), Obj(0)), 0)
            == Heap([SP(Obj(0), Some(1))], map[1 := 1], 2, [Obj(0)])
  {
    BindFirst();
    BindSecond();
    DestroyFirst();
  }

  lemma BindFirst()
    ensures Bind(Initial, Obj(0)) == Heap([SP(Obj(0), Some(0))], map[0 := 1], 1, [])
  {
  }

  lemma BindSecond()
    ensures Inv(Heap([SP(Obj(0), Some(0))], map[0 := 1], 1, []))
    ensures Bind(Heap([SP(Obj(0), Some(0))], map[0 := 1], 1, []), Obj(0))
            == Heap([SP(Obj(0), Some(0)), SP(Obj(0), Some(1))], map[0 := 1, 1 := 1], 2, [])
  {
    BindFirst();
  }

  lemma DestroyFirst()
    ensures Inv(Heap([SP(Obj(0), Some(0)), SP(Obj(0), Some(1))], map[0 := 1, 1 := 1], 2, []))
    ensures Destroy(Heap([SP(Obj(0), Some(0)), SP(Obj(0), Some(1))], map[0 := 1, 1 := 1], 2, []), 0)
            == Heap([SP(Obj(0), Some(1))], map[1 := 1], 2, [Obj(0)])
  {
    BindSecond();
    var h2 := Heap([SP(Obj(0), Some(0)), SP(Obj(0), Some(1))], map[0 := 1, 1 := 1], 2, []);
    var h3 := Destroy(h2, 0);
    assert h2.vars[1..] == [SP(Obj(0), Some(1))];
    assert h3.refs == map[1 := 1];
  }

  /** Binding the same raw pointer to two smart pointers, then letting one
      go, leaves the other on a deleted object. */
  lemma DoubleBindDangles()
    ensures var r := Run(Initial, [BindOp(Obj(0)), BindOp(Obj(0)), DestroyOp(0)]);
            && r.Some? && |r.value.vars| == 1 && r.value.vars[0].p == Obj(0)
            && r.value.deleted == [Obj(0)] && !Safe(r.value)
  {
    var ops := [BindOp(Obj(0)), BindOp(Obj(0)), DestroyOp(0)];
    DoubleBindState();
    var h1 := Bind(Initial, Obj(0));
    var h2 := Bind(h1, Obj(0));
    var h3 := Destroy(h2, 0);
    RunFirst(Initial, ops);
    assert ops[1..][1..] == ops[2..] && ops[2..][1..] == [];
    RunFirst(h1, ops[1..]);
    RunFirst(h2, ops[2..]);
    assert Run(h3, []) == Some(h3);
  }
}
