/**
 The size of an object graph: a worklist over objects that may be shared and may form cycles.

 Objects are named by their identity. What an object refers to is fixed while it is measured, and an
 identity stands for one object throughout.
 */
module RetainedSize {
  import opened Wrappers

  type Identity = int

  /** `isState` says that the key equals "_sa_instance_state". */
  datatype Entry = Entry(key: Identity, value: Identity, isState: bool)

  /** An instance's `None` slots are those that are declared but not set. */
  datatype Shape =
    | Leaf
    | Dictionary(entries: seq<Entry>)
    | Collection(items: seq<Identity>)
    | Instance(attributes: Option<Identity>, slots: seq<Option<Identity>>)

  datatype Object = Object(size: nat, shape: Shape)

  type Heap = map<Identity, Object>

  // ---- what an object refers to ----

  function EntryTargets(entries: seq<Entry>): seq<Identity> {
    if entries == [] then []
    else
      var last := entries[|entries| - 1];
      EntryTargets(entries[..|entries| - 1]) + if last.isState then [] else [last.key, last.value]
  }

  function SlotTargets(slots: seq<Option<Identity>>): seq<Identity> {
    if slots == [] then []
    else
      var last := slots[|slots| - 1];
      SlotTargets(slots[..|slots| - 1]) + if last.None? then [] else [last.value]
  }

  function Targets(shape: Shape): seq<Identity> {
    match shape
    case Leaf => []
    case Dictionary(entries) => EntryTargets(entries)
    case Collection(items) => items
    case Instance(attributes, slots) => (if attributes.Some? then [attributes.value] else []) + SlotTargets(slots)
  }

  /** Every reference leads to an object. */
  ghost predicate Closed(heap: Heap) {
    forall x, y :: x in heap && y in Targets(heap[x].shape) ==> y in heap
  }

  // ---- reachability ----

  ghost predicate Edge(heap: Heap, x: Identity, y: Identity) {
    x in heap && y in Targets(heap[x].shape)
  }

  ghost predicate Path(heap: Heap, root: Identity, p: seq<Identity>) {
    && p != [] && p[0] == root
    && forall i :: 0 <= i < |p| - 1 ==> Edge(heap, p[i], p[i + 1])
  }

  ghost predicate Reachable(heap: Heap, root: Identity, x: Identity) {
    exists p :: Path(heap, root, p) && p[|p| - 1] == x
  }

  ghost function Retained(heap: Heap, root: Identity): set<Identity> {
    set x | x in heap && Reachable(heap, root, x)
  }

  /** The sizes of a set of objects, each counted once. */
  ghost function Total(heap: Heap, objects: set<Identity>): nat
    requires objects <= heap.Keys
  {
    if objects == {} then 0
    else
      var x := Pick(objects);
      heap[x].size + Total(heap, objects - {x})
  }

  ghost function Pick<T>(objects: set<T>): (x: T)
    requires objects != {}
    ensures x in objects
  {
    var x :| x in objects;
    x
  }

  lemma {:induction false} OneMissing<T>(fewer: set<T>, more: set<T>)
    requires fewer < more
    ensures more - fewer != {}
  {
    var x :| x in more && x !in fewer;
    assert x in more - fewer;
  }

  lemma {:induction false} TotalOfOneMore(heap: Heap, objects: set<Identity>, x: Identity)
    requires objects <= heap.Keys && x in heap && x !in objects
    ensures Total(heap, objects + {x}) == Total(heap, objects) + heap[x].size
    decreases objects
  {
    var more := objects + {x};
    var y := Pick(more);
    if y == x {
      assert more - {x} == objects;
    } else {
      assert more - {y} == (objects - {y}) + {x};
      TotalOfOneMore(heap, objects - {y}, x);
      TotalOfOneMore(heap, objects - {y}, y);
      assert (objects - {y}) + {y} == objects;
    }
  }

  lemma {:induction false} TotalIsMonotone(heap: Heap, fewer: set<Identity>, more: set<Identity>)
    requires fewer <= more <= heap.Keys
    ensures Total(heap, fewer) <= Total(heap, more)
    decreases more - fewer
  {
    if fewer != more {
      OneMissing(fewer, more);
      var x := Pick(more - fewer);
      TotalIsMonotone(heap, fewer + {x}, more);
      TotalOfOneMore(heap, fewer, x);
    }
  }

  lemma {:induction false} RootReachable(heap: Heap, root: Identity)
    ensures Reachable(heap, root, root)
  {
    assert Path(heap, root, [root]);
  }

  lemma {:induction false} PathPrefix(heap: Heap, root: Identity, p: seq<Identity>)
    requires Path(heap, root, p) && |p| > 1
    ensures Path(heap, root, p[..|p| - 1])
  {
    var q := p[..|p| - 1];
    forall i | 0 <= i < |q| - 1
      ensures Edge(heap, q[i], q[i + 1])
    {
      assert Edge(heap, p[i], p[i + 1]);
    }
  }

  lemma {:induction false} OneStepFurther(heap: Heap, root: Identity, x: Identity, y: Identity)
    requires Reachable(heap, root, x) && Edge(heap, x, y)
    ensures Reachable(heap, root, y)
  {
    var p :| Path(heap, root, p) && p[|p| - 1] == x;
    assert Path(heap, root, p + [y]) by {
      forall i | 0 <= i < |p + [y]| - 1
        ensures Edge(heap, (p + [y])[i], (p + [y])[i + 1])
      {
        if i < |p| - 1 {
          assert Edge(heap, p[i], p[i + 1]);
        }
      }
    }
    assert (p + [y])[|p + [y]| - 1] == y;
  }

  /** A set that holds the root and every target of its members holds everything reachable. */
  lemma {:induction false} ClosedSetHoldsPath(heap: Heap, root: Identity, closed: set<Identity>, p: seq<Identity>)
    requires root in closed && Path(heap, root, p)
    requires forall x, y :: x in closed && Edge(heap, x, y) ==> y in closed
    ensures p[|p| - 1] in closed
    decreases |p|
  {
    if |p| > 1 {
      var q := p[..|p| - 1];
      PathPrefix(heap, root, p);
      ClosedSetHoldsPath(heap, root, closed, q);
      assert Edge(heap, p[|p| - 2], p[|p| - 1]);
    }
  }

  lemma {:induction false} ClosedSetHoldsRetained(heap: Heap, root: Identity, closed: set<Identity>)
    requires root in closed
    requires forall x, y :: x in closed && Edge(heap, x, y) ==> y in closed
    ensures forall x :: Reachable(heap, root, x) ==> x in closed
  {
    forall x | Reachable(heap, root, x)
      ensures x in closed
    {
      var p :| Path(heap, root, p) && p[|p| - 1] == x;
      ClosedSetHoldsPath(heap, root, closed, p);
    }
  }

  // ---- the traversal ----

  /** Puts an object's references on the stack. */
  method Expand(shape: Shape, stack: seq<Identity>) returns (pushed: seq<Identity>)
    ensures pushed == stack + Targets(shape)
  {
    pushed := stack;
    match shape
    case Leaf =>
    case Dictionary(entries) =>
      for i := 0 to |entries|
        invariant pushed == stack + EntryTargets(entries[..i])
      {
        assert entries[..i + 1][..i] == entries[..i];
        if entries[i].isState {
          continue;
        }
        pushed := pushed + [entries[i].key];
        pushed := pushed + [entries[i].value];
      }
      assert entries[..|entries|] == entries;
    case Collection(items) =>
      pushed := pushed + items;
    case Instance(attributes, slots) =>
      if attributes.Some? {
        pushed := pushed + [attributes.value];
      }
      ghost var base := pushed;
      for i := 0 to |slots|
        invariant pushed == base + SlotTargets(slots[..i])
      {
        assert slots[..i + 1][..i] == slots[..i];
        if slots[i].None? {
          continue;
        }
        pushed := pushed + [slots[i].value];
      }
      assert slots[..|slots|] == slots;
  }

  /**
   The sizes of exactly the objects reachable from the root, each counted once, for every finite graph,
   cyclic or not. References under the state key do not count as references.
   */
  method Measure(heap: Heap, root: Identity) returns (total: nat)
    requires Closed(heap) && root in heap
    ensures total == Total(heap, Retained(heap, root))
  {
    var seen: set<Identity> := {};
    var stack := [root];
    total := 0;
    RootReachable(heap, root);
    while stack != []
      invariant seen <= heap.Keys && total == Total(heap, seen)
      invariant forall x :: x in stack || x in seen ==> x in heap && Reachable(heap, root, x)
      invariant root in stack || root in seen
      invariant forall x, y :: x in seen && Edge(heap, x, y) ==> y in seen || y in stack
      decreases heap.Keys - seen, |stack|
    {
      var x := stack[|stack| - 1];
      ghost var waiting := stack;
      stack := stack[..|stack| - 1];
      assert forall y :: y in waiting ==> y == x || y in stack;
      if x in seen {
        continue;
      }
      TotalOfOneMore(heap, seen, x);
      seen := seen + {x};
      total := total + heap[x].size;
      if heap[x].shape.Leaf? {
        continue;
      }
      forall y | y in Targets(heap[x].shape)
        ensures y in heap && Reachable(heap, root, y)
      {
        OneStepFurther(heap, root, x, y);
      }
      stack := Expand(heap[x].shape, stack);
    }
    ClosedSetHoldsRetained(heap, root, seen);
    assert seen == Retained(heap, root);
  }

  /** What an object retains is retained by everything it is reachable from. */
  lemma {:induction false} PartsAreNotLarger(heap: Heap, root: Identity, x: Identity)
    requires Reachable(heap, root, x)
    ensures Retained(heap, x) <= Retained(heap, root)
    ensures Total(heap, Retained(heap, x)) <= Total(heap, Retained(heap, root))
  {
    forall y | y in Retained(heap, x)
      ensures y in Retained(heap, root)
    {
      var p :| Path(heap, x, p) && p[|p| - 1] == y;
      FurtherAlong(heap, root, x, p);
    }
    TotalIsMonotone(heap, Retained(heap, x), Retained(heap, root));
  }

  lemma {:induction false} FurtherAlong(heap: Heap, root: Identity, x: Identity, p: seq<Identity>)
    requires Reachable(heap, root, x) && Path(heap, x, p)
    ensures Reachable(heap, root, p[|p| - 1])
    decreases |p|
  {
    if |p| > 1 {
      var q := p[..|p| - 1];
      PathPrefix(heap, x, p);
      FurtherAlong(heap, root, x, q);
      assert Edge(heap, p[|p| - 2], p[|p| - 1]);
      OneStepFurther(heap, root, p[|p| - 2], p[|p| - 1]);
    }
  }

  /** An entry other than the state entry holds the object as its key or value. */
  predicate HoldsAt(entries: seq<Entry>, i: int, y: Identity) {
    0 <= i < |entries| && !entries[i].isState && (y == entries[i].key || y == entries[i].value)
  }

  /** A dictionary that refers to an object only under the state key does not retain it. */
  lemma {:induction false} StateKeyIsCut(entries: seq<Entry>, y: Identity)
    ensures y in EntryTargets(entries) <==> exists i :: HoldsAt(entries, i, y)
  {
    if entries != [] {
      var front := entries[..|entries| - 1];
      StateKeyIsCut(front, y);
      assert forall i :: 0 <= i < |front| ==> (HoldsAt(entries, i, y) <==> HoldsAt(front, i, y));
      assert y in EntryTargets(entries) <==> y in EntryTargets(front) || HoldsAt(entries, |front|, y);
    }
  }

  lemma {:induction false} SlotsHold(slots: seq<Option<Identity>>, y: Identity)
    ensures y in SlotTargets(slots) <==> Some(y) in slots
  {
    if slots != [] {
      SlotsHold(slots[..|slots| - 1], y);
      assert slots == slots[..|slots| - 1] + [slots[|slots| - 1]];
    }
  }

  /**
   An instance refers to its attributes and to what its set slots hold, a collection to its items, a leaf
   to nothing.
   */
  lemma {:induction false} RefersExactly(shape: Shape, y: Identity)
    ensures y in Targets(shape) <==>
            match shape
            case Leaf => false
            case Dictionary(entries) => exists i :: HoldsAt(entries, i, y)
            case Collection(items) => y in items
            case Instance(attributes, slots) => attributes == Some(y) || Some(y) in slots
  {
    match shape
    case Leaf =>
    case Dictionary(entries) => StateKeyIsCut(entries, y);
    case Collection(items) =>
    case Instance(attributes, slots) => SlotsHold(slots, y);
  }
}
