/** A set kept as a sorted vector, refined to a mathematical set. */
module OrderedSets {

  /** What `Ord` promises of the element type. */
  ghost predicate StrictOrder<T(!new)>(lt: (T, T) -> bool) {
    && (forall x, y :: lt(x, y) ==> !lt(y, x))
    && (forall x, y, z :: lt(x, y) && lt(y, z) ==> lt(x, z))
    && (forall x, y :: x != y ==> lt(x, y) || lt(y, x))
  }

  ghost predicate Increasing<T>(lt: (T, T) -> bool, v: seq<T>) {
    forall i, j :: 0 <= i < j < |v| ==> lt(v[i], v[j])
  }

  ghost predicate NonDecreasing<T>(lt: (T, T) -> bool, v: seq<T>) {
    forall i, j :: 0 <= i < j < |v| ==> !lt(v[j], v[i])
  }

  ghost function Elements<T>(v: seq<T>): set<T> { set x | x in v }

  lemma ElementsAppend<T>(a: seq<T>, b: seq<T>)
    ensures Elements(a + b) == Elements(a) + Elements(b)
  {
  }

  lemma NoElements<T>(v: seq<T>)
    ensures Elements(v) == {} <==> v == []
  {
    if v != [] {
      assert v[0] in Elements(v);
    }
  }

  // ---- The vector is determined by the set ----

  lemma {:induction false} Canonical<T(!new)>(lt: (T, T) -> bool, a: seq<T>, b: seq<T>)
    requires StrictOrder(lt) && Increasing(lt, a) && Increasing(lt, b)
    requires Elements(a) == Elements(b)
    ensures a == b
  {
    NoElements(a);
    NoElements(b);
    if a != [] {
      assert a[0] in Elements(b) && b[0] in Elements(a);
      FirstIsLeast(lt, a, b);
      FirstIsLeast(lt, b, a);
      TailElements(lt, a);
      TailElements(lt, b);
      Canonical(lt, a[1..], b[1..]);
      assert a == [a[0]] + a[1..] && b == [b[0]] + b[1..];
    }
  }

  lemma FirstIsLeast<T(!new)>(lt: (T, T) -> bool, a: seq<T>, b: seq<T>)
    requires StrictOrder(lt) && Increasing(lt, a) && a != [] && b != [] && b[0] in Elements(a)
    ensures !lt(b[0], a[0])
  {
    var i :| 0 <= i < |a| && a[i] == b[0];
  }

  lemma TailElements<T(!new)>(lt: (T, T) -> bool, a: seq<T>)
    requires StrictOrder(lt) && Increasing(lt, a) && a != []
    ensures Elements(a[1..]) == Elements(a) - {a[0]}
  {
    assert a == [a[0]] + a[1..];
    forall x | x in a[1..] ensures x != a[0] {
    }
  }

  // ---- Building from any vector ----

  /** One step of the library's stable sort, from the back. */
  function InsertInOrder<T>(lt: (T, T) -> bool, x: T, v: seq<T>): seq<T> {
    if v == [] || !lt(v[0], x) then [x] + v else [v[0]] + InsertInOrder(lt, x, v[1..])
  }

  function Sort<T>(lt: (T, T) -> bool, v: seq<T>): seq<T> {
    if v == [] then [] else InsertInOrder(lt, v[0], Sort(lt, v[1..]))
  }

  lemma {:induction false} InsertInOrderSorts<T(!new)>(lt: (T, T) -> bool, x: T, v: seq<T>)
    requires StrictOrder(lt) && NonDecreasing(lt, v)
    ensures NonDecreasing(lt, InsertInOrder(lt, x, v))
    ensures Elements(InsertInOrder(lt, x, v)) == Elements(v) + {x}
  {
    if v == [] || !lt(v[0], x) {
      ElementsAppend([x], v);
    } else {
      InsertInOrderSorts(lt, x, v[1..]);
      var tail := InsertInOrder(lt, x, v[1..]);
      assert v == [v[0]] + v[1..];
      ElementsAppend([v[0]], v[1..]);
      ElementsAppend([v[0]], tail);
      forall y | y in tail ensures !lt(y, v[0]) {
        assert y in Elements(tail);
      }
    }
  }

  lemma {:induction false} SortSorts<T(!new)>(lt: (T, T) -> bool, v: seq<T>)
    requires StrictOrder(lt)
    ensures NonDecreasing(lt, Sort(lt, v)) && Elements(Sort(lt, v)) == Elements(v)
  {
    if v != [] {
      SortSorts(lt, v[1..]);
      InsertInOrderSorts(lt, v[0], Sort(lt, v[1..]));
      assert v == [v[0]] + v[1..];
    }
  }

  /** `dedup`: keeps the first of equal neighbours. */
  method Dedup<T(!new, ==)>(lt: (T, T) -> bool, v: seq<T>) returns (r: seq<T>)
    requires StrictOrder(lt) && NonDecreasing(lt, v)
    ensures Increasing(lt, r) && Elements(r) == Elements(v)
  {
    r := [];
    for i := 0 to |v|
      invariant Increasing(lt, r) && Elements(r) == Elements(v[..i])
      invariant r == [] <==> i == 0
      invariant i > 0 ==> r[|r| - 1] == v[i - 1]
    {
      assert v[..i + 1] == v[..i] + [v[i]];
      ElementsAppend(v[..i], [v[i]]);
      ElementsAppend(r, [v[i]]);
      if i == 0 || v[i] != v[i - 1] {
        assert i > 0 ==> lt(v[i - 1], v[i]);
        r := r + [v[i]];
      }
    }
    assert v[..|v|] == v;
  }

  // ---- Searching ----

  datatype Found = Found(at: nat) | InsertAt(at: nat)

  /** `binary_search`: the position of the value, or where it belongs. */
  method BinarySearch<T(!new, ==)>(lt: (T, T) -> bool, v: seq<T>, value: T) returns (r: Found)
    requires StrictOrder(lt) && Increasing(lt, v)
    ensures r.Found? ==> r.at < |v| && v[r.at] == value
    ensures r.InsertAt? ==> r.at <= |v| && (forall i :: 0 <= i < r.at ==> lt(v[i], value))
                                         && (forall i :: r.at <= i < |v| ==> lt(value, v[i]))
  {
    var left, right := 0, |v|;
    while left < right
      invariant 0 <= left <= right <= |v|
      invariant forall i :: 0 <= i < left ==> lt(v[i], value)
      invariant forall i :: right <= i < |v| ==> lt(value, v[i])
    {
      var mid := left + (right - left) / 2;
      if v[mid] == value {
        return Found(mid);
      } else if lt(v[mid], value) {
        left := mid + 1;
      } else {
        right := mid;
      }
    }
    return InsertAt(left);
  }

  // ---- Specification of the operations, on sets ----

  datatype Op<T> = Insert(value: T) | Remove(value: T) | Contains(value: T) | Clear

  ghost function Effect<T>(s: set<T>, op: Op<T>): set<T> {
    match op
    case Insert(x) => s + {x}
    case Remove(x) => s - {x}
    case Contains(_) => s
    case Clear => {}
  }

  /** What the operation returns; `clear` returns nothing. */
  ghost function Answer<T>(s: set<T>, op: Op<T>): bool {
    match op
    case Insert(x) => x !in s
    case Remove(x) => x in s
    case Contains(x) => x in s
    case Clear => false
  }

  ghost function Effects<T>(s: set<T>, ops: seq<Op<T>>): set<T>
    decreases |ops|
  {
    if ops == [] then s else Effects(Effect(s, ops[0]), ops[1..])
  }

  // ---- The operations on vectors, by linear scan ----

  function InsertSorted<T(==)>(lt: (T, T) -> bool, v: seq<T>, x: T): seq<T> {
    if v == [] || lt(x, v[0]) then [x] + v
    else if v[0] == x then v
    else [v[0]] + InsertSorted(lt, v[1..], x)
  }

  function RemoveSorted<T(==)>(v: seq<T>, x: T): seq<T> {
    if v == [] then []
    else if v[0] == x then v[1..]
    else [v[0]] + RemoveSorted(v[1..], x)
  }

  function VectorStep<T(==)>(lt: (T, T) -> bool, v: seq<T>, op: Op<T>): seq<T> {
    match op
    case Insert(x) => InsertSorted(lt, v, x)
    case Remove(x) => RemoveSorted(v, x)
    case Contains(_) => v
    case Clear => []
  }

  function VectorRun<T(==)>(lt: (T, T) -> bool, v: seq<T>, ops: seq<Op<T>>): seq<T>
    decreases |ops|
  {
    if ops == [] then v else VectorRun(lt, VectorStep(lt, v, ops[0]), ops[1..])
  }

  lemma Prepend<T(!new)>(lt: (T, T) -> bool, head: T, tail: seq<T>)
    requires Increasing(lt, tail)
    requires forall y :: y in Elements(tail) ==> lt(head, y)
    ensures Increasing(lt, [head] + tail) && Elements([head] + tail) == {head} + Elements(tail)
  {
    ElementsAppend([head], tail);
    forall i | 0 <= i < |tail| ensures lt(head, tail[i]) {
      assert tail[i] in Elements(tail);
    }
  }

  lemma HeadBelowTail<T(!new)>(lt: (T, T) -> bool, v: seq<T>)
    requires StrictOrder(lt) && Increasing(lt, v) && v != []
    ensures Increasing(lt, v[1..]) && v[0] in Elements(v)
    ensures forall y :: y in Elements(v[1..]) ==> lt(v[0], y)
    ensures Elements(v[1..]) == Elements(v) - {v[0]}
  {
    TailElements(lt, v);
  }

  lemma {:induction false} InsertSortedIsInsert<T(!new)>(lt: (T, T) -> bool, v: seq<T>, x: T)
    requires StrictOrder(lt) && Increasing(lt, v)
    ensures Increasing(lt, InsertSorted(lt, v, x)) && Elements(InsertSorted(lt, v, x)) == Elements(v) + {x}
  {
    if v == [] {
      Prepend(lt, x, v);
    } else {
      HeadBelowTail(lt, v);
      if lt(x, v[0]) {
        Prepend(lt, x, v);
      } else if v[0] != x {
        InsertSortedIsInsert(lt, v[1..], x);
        Prepend(lt, v[0], InsertSorted(lt, v[1..], x));
      }
    }
  }

  lemma {:induction false} RemoveSortedIsRemove<T(!new)>(lt: (T, T) -> bool, v: seq<T>, x: T)
    requires StrictOrder(lt) && Increasing(lt, v)
    ensures Increasing(lt, RemoveSorted(v, x)) && Elements(RemoveSorted(v, x)) == Elements(v) - {x}
  {
    if v != [] {
      HeadBelowTail(lt, v);
      if v[0] != x {
        RemoveSortedIsRemove(lt, v[1..], x);
        Prepend(lt, v[0], RemoveSorted(v[1..], x));
      }
    }
  }

  lemma VectorStepRefines<T(!new)>(lt: (T, T) -> bool, v: seq<T>, op: Op<T>)
    requires StrictOrder(lt) && Increasing(lt, v)
    ensures Increasing(lt, VectorStep(lt, v, op)) && Elements(VectorStep(lt, v, op)) == Effect(Elements(v), op)
  {
    match op
    case Insert(x) => InsertSortedIsInsert(lt, v, x);
    case Remove(x) => RemoveSortedIsRemove(lt, v, x);
    case Contains(_) =>
    case Clear =>
  }

  /** Any run of operations keeps the vector strictly increasing and ends with the set that the
      mathematical operations give; equal sets are then equal vectors. */
  lemma {:induction false} VectorRunRefines<T(!new)>(lt: (T, T) -> bool, v: seq<T>, ops: seq<Op<T>>)
    requires StrictOrder(lt) && Increasing(lt, v)
    ensures Increasing(lt, VectorRun(lt, v, ops)) && Elements(VectorRun(lt, v, ops)) == Effects(Elements(v), ops)
    decreases |ops|
  {
    if ops != [] {
      VectorStepRefines(lt, v, ops[0]);
      VectorRunRefines(lt, VectorStep(lt, v, ops[0]), ops[1..]);
    }
  }

  /** Two runs that end with the same set end with the same vector, whatever they did. */
  lemma EqualSetsEqualVectors<T(!new)>(
    lt: (T, T) -> bool, v: seq<T>, ops: seq<Op<T>>, v': seq<T>, ops': seq<Op<T>>)
    requires StrictOrder(lt) && Increasing(lt, v) && Increasing(lt, v')
    ensures VectorRun(lt, v, ops) == VectorRun(lt, v', ops')
            <==> Effects(Elements(v), ops) == Effects(Elements(v'), ops')
  {
    VectorRunRefines(lt, v, ops);
    VectorRunRefines(lt, v', ops');
    if Effects(Elements(v), ops) == Effects(Elements(v'), ops') {
      Canonical(lt, VectorRun(lt, v, ops), VectorRun(lt, v', ops'));
    }
  }

  lemma InsertElements<T(!new)>(lt: (T, T) -> bool, v: seq<T>, at: nat, x: T)
    requires StrictOrder(lt) && Increasing(lt, v) && at <= |v|
    requires forall i :: 0 <= i < at ==> lt(v[i], x)
    requires forall i :: at <= i < |v| ==> lt(x, v[i])
    ensures x !in v
    ensures Increasing(lt, v[..at] + [x] + v[at..])
    ensures Elements(v[..at] + [x] + v[at..]) == Elements(v) + {x}
  {
    assert v == v[..at] + v[at..];
  }

  lemma RemoveElements<T(!new)>(lt: (T, T) -> bool, v: seq<T>, at: nat)
    requires StrictOrder(lt) && Increasing(lt, v) && at < |v|
    ensures Increasing(lt, v[..at] + v[at + 1..])
    ensures Elements(v[..at] + v[at + 1..]) == Elements(v) - {v[at]}
  {
    assert v == v[..at] + [v[at]] + v[at + 1..];
    forall i | 0 <= i < |v| && i != at ensures v[i] != v[at] {
      assert if i < at then lt(v[i], v[at]) else lt(v[at], v[i]);
    }
  }

  class OrderedSet<T(!new, ==)> {
    const lt: (T, T) -> bool
    var items: seq<T>

    ghost predicate Valid()
      reads this
    {
      StrictOrder(lt) && Increasing(lt, items)
    }

    /** The elements as a mathematical set. */
    ghost function Contents(): set<T>
      reads this
    {
      Elements(items)
    }

    constructor New(order: (T, T) -> bool)
      requires StrictOrder(order)
      ensures Valid() && lt == order && Contents() == {}
    {
      lt, items := order, [];
    }

    /** Builds the set from any vector, which is sorted and deduplicated first. */
    constructor From(order: (T, T) -> bool, v: seq<T>)
      requires StrictOrder(order)
      ensures Valid() && lt == order && Contents() == Elements(v)
    {
      SortSorts(order, v);
      var unique := Dedup(order, Sort(order, v));
      lt, items := order, unique;
    }

    method Insert(value: T) returns (inserted: bool)
      requires Valid()
      modifies `items
      ensures Valid() && items == VectorStep(lt, old(items), Op.Insert(value))
      ensures Contents() == Effect(old(Contents()), Op.Insert(value))
      ensures inserted == Answer(old(Contents()), Op.Insert(value))
    {
      VectorStepRefines(lt, items, Op.Insert(value));
      var r := BinarySearch(lt, items, value);
      match r
      case Found(at) =>
        assert items[at] in Elements(items);
        Canonical(lt, items, InsertSorted(lt, items, value));
        inserted := false;
      case InsertAt(loc) =>
        InsertElements(lt, items, loc, value);
        Canonical(lt, items[..loc] + [value] + items[loc..], InsertSorted(lt, items, value));
        items := items[..loc] + [value] + items[loc..];
        inserted := true;
    }

    method Remove(value: T) returns (removed: bool)
      requires Valid()
      modifies `items
      ensures Valid() && items == VectorStep(lt, old(items), Op.Remove(value))
      ensures Contents() == Effect(old(Contents()), Op.Remove(value))
      ensures removed == Answer(old(Contents()), Op.Remove(value))
    {
      VectorStepRefines(lt, items, Op.Remove(value));
      var r := BinarySearch(lt, items, value);
      match r
      case Found(loc) =>
        RemoveElements(lt, items, loc);
        Canonical(lt, items[..loc] + items[loc + 1..], RemoveSorted(items, value));
        items := items[..loc] + items[loc + 1..];
        removed := true;
      case InsertAt(_) =>
        assert value !in items;
        Canonical(lt, items, RemoveSorted(items, value));
        removed := false;
    }

    method Contains(value: T) returns (present: bool)
      requires Valid()
      ensures present == Answer(Contents(), Op.Contains(value))
    {
      var r := BinarySearch(lt, items, value);
      return r.Found?;
    }

    method Clear()
      modifies `items
      ensures items == VectorStep(lt, old(items), Op.Clear)
    {
      items := [];
    }
  }
}
