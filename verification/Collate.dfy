/** The JSON comparator of x/collate: CompareObject and what it computes. */
module Collate {
  import opened Wrappers

  /** An unmarshaled JSON value: Go's nil, bool, float64, string, []interface{} and
      map[string]interface{}. */
  datatype Value =
    | Null | Bool(b: bool) | Num(n: real) | Str(s: string)
    | Arr(items: seq<Value>) | Obj(members: map<string, Value>)

  /** The string collator; the float64 nearest to a number; and what the conversion of an
      out-of-range float64 to int gives, which Go leaves to the implementation. */
  datatype Env = Env(collate: (string, string) -> int, round: real -> real, overflow: real -> int)

  ghost predicate TotalOrder(c: (string, string) -> int) {
    && (forall a, b :: c(a, b) == 0 <==> a == b)
    && (forall a, b :: c(a, b) < 0 <==> c(b, a) > 0)
    && (forall a, b, d :: c(a, b) < 0 && c(b, d) < 0 ==> c(a, d) < 0)
  }

  lemma Transitive(c: (string, string) -> int, x: string, y: string, z: string)
    requires TotalOrder(c) && c(x, y) < 0 && c(y, z) < 0
    ensures c(x, z) < 0
  {
  }

  lemma Trichotomy(c: (string, string) -> int, x: string, y: string)
    requires TotalOrder(c)
    ensures c(x, y) == 0 <==> x == y
    ensures c(x, y) < 0 <==> c(y, x) > 0
    ensures c(x, y) > 0 <==> c(y, x) < 0
  {
  }

  /** jsonTypeOf */
  function TypeOf(v: Value): int {
    match v
    case Null => 0 case Bool(_) => 1 case Num(_) => 2 case Str(_) => 3 case Arr(_) => 4 case Obj(_) => 5
  }

  const TWO_63: int := 0x8000_0000_0000_0000

  const TWO_53: int := 0x20_0000_0000_0000

  /** The greatest float64 below 2^63 */
  const MAX_DIFFERENCE: int := TWO_63 - 1024

  function Eighths(n: int): real { n as real / 8.0 }

  /** What is asked of the rounding to float64: it keeps the order and the sign, and it leaves
      alone what a float64 holds exactly, such as eighths of moderate size. */
  ghost predicate IsRounding(round: real -> real) {
    && (forall x, y :: x <= y ==> round(x) <= round(y))
    && (forall x :: round(-x) == -round(x))
    && (forall n :: -TWO_53 <= n <= TWO_53 ==> round(Eighths(n)) == Eighths(n))
    && round(MAX_DIFFERENCE as real) == MAX_DIFFERENCE as real
  }

  /** int(x): truncation toward zero */
  function Int(env: Env, x: real): int {
    var t := if x < 0.0 then -((-x).Floor) else x.Floor;
    if -TWO_63 <= t < TWO_63 then t else env.overflow(x)
  }

  // ---------------------------------------------------------------------------
  // Sorted keys
  // ---------------------------------------------------------------------------

  ghost predicate Sorted(c: (string, string) -> int, keys: seq<string>) {
    forall i, j :: 0 <= i < j < |keys| ==> c(keys[i], keys[j]) < 0
  }

  ghost predicate IsSorting(c: (string, string) -> int, keys: seq<string>, s: set<string>) {
    Sorted(c, keys) && forall k :: k in keys <==> k in s
  }

  /** Insertion into a sorted sequence, the position found from the left. */
  method Insert(c: (string, string) -> int, keys: seq<string>, k: string) returns (keys': seq<string>)
    requires TotalOrder(c) && Sorted(c, keys) && k !in keys
    ensures IsSorting(c, keys', set x | x in keys + [k])
  {
    var i := 0;
    while i < |keys| && c(keys[i], k) < 0
      invariant 0 <= i <= |keys|
      invariant forall j :: 0 <= j < i ==> c(keys[j], k) < 0
    {
      i := i + 1;
    }
    keys' := keys[..i] + [k] + keys[i..];
    InsertedAt(c, keys, k, i);
  }

  lemma {:induction false} InsertedAt(c: (string, string) -> int, keys: seq<string>, k: string, i: nat)
    requires TotalOrder(c) && Sorted(c, keys) && k !in keys && i <= |keys|
    requires forall j :: 0 <= j < i ==> c(keys[j], k) < 0
    requires i < |keys| ==> c(keys[i], k) >= 0
    ensures IsSorting(c, keys[..i] + [k] + keys[i..], set x | x in keys + [k])
  {
    hide TotalOrder;
    forall j | i <= j < |keys|
      ensures c(k, keys[j]) < 0
    {
      Trichotomy(c, keys[i], k);
      if i < j {
        Transitive(c, k, keys[i], keys[j]);
      }
    }
    assert forall x :: x in keys <==> x in keys[..i] || x in keys[i..] by {
      assert keys == keys[..i] + keys[i..];
    }
  }

  /** The keys of a Go map, collected in any order and sorted. */
  method SortKeys(c: (string, string) -> int, s: set<string>) returns (keys: seq<string>)
    requires TotalOrder(c)
    ensures IsSorting(c, keys, s)
  {
    keys := [];
    var rest := s;
    while rest != {}
      invariant rest <= s && IsSorting(c, keys, s - rest)
      decreases |rest|
    {
      var k :| k in rest;
      rest := rest - {k};
      keys := Insert(c, keys, k);
    }
  }

  /** The first key of a sorting comes before every other key. */
  lemma {:induction false} FirstIsLeast(c: (string, string) -> int, keys: seq<string>, k: string)
    requires Sorted(c, keys) && k in keys
    ensures k == keys[0] || c(keys[0], k) < 0
    ensures k != keys[0] ==> k in keys[1..]
    ensures k in keys[1..] ==> c(keys[0], k) < 0
  {
    var i :| 0 <= i < |keys| && keys[i] == k;
    assert keys == [keys[0]] + keys[1..];
    if k in keys[1..] {
      var j :| 0 <= j < |keys[1..]| && keys[1..][j] == k;
      assert c(keys[0], keys[j + 1]) < 0;
    }
  }

  /** A set has one sorting only, so how it was collected and sorted does not matter. */
  lemma {:induction false} SortingIsUnique(c: (string, string) -> int, xs: seq<string>, ys: seq<string>)
    requires TotalOrder(c) && Sorted(c, xs) && Sorted(c, ys) && (forall k :: k in xs <==> k in ys)
    ensures xs == ys
    decreases |xs|
  {
    hide TotalOrder;
    if ys != [] {
      assert ys[0] in ys;
    }
    if xs == [] {
      assert ys == [];
    } else {
      assert xs[0] in xs;
      FirstIsLeast(c, xs, ys[0]);
      FirstIsLeast(c, ys, xs[0]);
      Trichotomy(c, xs[0], ys[0]);
      assert xs[0] == ys[0];
      forall k
        ensures k in xs[1..] <==> k in ys[1..]
      {
        assert xs == [xs[0]] + xs[1..] && ys == [ys[0]] + ys[1..];
        Trichotomy(c, k, k);
        if k in xs {
          FirstIsLeast(c, xs, k);
          FirstIsLeast(c, ys, k);
        }
      }
      SortingIsUnique(c, xs[1..], ys[1..]);
      assert xs == [xs[0]] + xs[1..] && ys == [ys[0]] + ys[1..];
    }
  }

  function Inserted(c: (string, string) -> int, keys: seq<string>, k: string): (keys': seq<string>)
    decreases |keys|
  {
    if keys == [] || c(k, keys[0]) < 0 then [k] + keys else [keys[0]] + Inserted(c, keys[1..], k)
  }

  lemma {:induction false} InsertedIsSorting(c: (string, string) -> int, keys: seq<string>, k: string)
    requires TotalOrder(c) && Sorted(c, keys) && k !in keys
    ensures Sorted(c, Inserted(c, keys, k))
    ensures forall x :: x in Inserted(c, keys, k) <==> x == k || x in keys
    decreases |keys|
  {
    hide TotalOrder;
    if keys != [] {
      assert keys == [keys[0]] + keys[1..];
      if c(k, keys[0]) < 0 {
        forall j | 0 <= j < |keys|
          ensures c(k, keys[j]) < 0
        {
          if j > 0 {
            Transitive(c, k, keys[0], keys[j]);
          }
        }
      } else {
        InsertedIsSorting(c, keys[1..], k);
        Trichotomy(c, keys[0], k);
        var more := Inserted(c, keys[1..], k);
        forall j | 0 <= j < |more|
          ensures c(keys[0], more[j]) < 0
        {
          assert more[j] in more;
        }
      }
    }
  }

  ghost function SortedKeys(c: (string, string) -> int, s: set<string>): (keys: seq<string>)
    requires TotalOrder(c)
    ensures IsSorting(c, keys, s)
    decreases s
  {
    if s == {} then []
    else
      var k :| k in s;
      InsertedIsSorting(c, SortedKeys(c, s - {k}), k);
      Inserted(c, SortedKeys(c, s - {k}), k)
  }

  // ---------------------------------------------------------------------------
  // CompareObject
  // ---------------------------------------------------------------------------

  /** CompareObject; None is a panic. */
  ghost function Compare(env: Env, a: Value, b: Value): Option<int>
    requires TotalOrder(env.collate)
    decreases a, 1, 0
  {
    if TypeOf(a) < TypeOf(b) then Some(-1)
    else if TypeOf(a) > TypeOf(b) then Some(1)
    else match a
      case Null => None
      case Bool(x) => Some(if x == b.b then 0 else if !x then -1 else 1)
      case Num(x) => Some(Int(env, env.round(x - b.n)))
      case Str(x) => Some(env.collate(x, b.s))
      case Arr(items) => CompareItems(env, items, b.items)
      case Obj(m) => CompareKeys(env, a, b, SortedKeys(env.collate, m.Keys + b.members.Keys), 0)
  }

  ghost function CompareItems(env: Env, xs: seq<Value>, ys: seq<Value>): Option<int>
    requires TotalOrder(env.collate)
    decreases xs, 0, 0
  {
    if xs == [] || ys == [] then Some(|xs| - |ys|)
    else
      var cmp := Compare(env, xs[0], ys[0]);
      if cmp == Some(0) then CompareItems(env, xs[1..], ys[1..]) else cmp
  }

  /** The loop over the keys of both objects, from the i-th key. */
  ghost function CompareKeys(env: Env, a: Value, b: Value, keys: seq<string>, i: nat): Option<int>
    requires TotalOrder(env.collate) && a.Obj? && b.Obj?
    decreases a, 0, |keys| - i
  {
    if i >= |keys| then None
    else if keys[i] !in a.members then Some(1)
    else if keys[i] !in b.members then Some(-1)
    else
      var cmp := Compare(env, a.members[keys[i]], b.members[keys[i]]);
      if cmp != Some(0) then cmp
      else if i + 1 == |a.members| || i + 1 == |b.members| then Some(|a.members| - |b.members|)
      else CompareKeys(env, a, b, keys, i + 1)
  }

  method CompareObject(env: Env, a: Value, b: Value) returns (r: Option<int>)
    requires TotalOrder(env.collate)
    ensures r == Compare(env, a, b)
    decreases a
  {
    hide TotalOrder, Sorted, SortedKeys;
    if TypeOf(a) < TypeOf(b) {
      return Some(-1);
    }
    if TypeOf(a) > TypeOf(b) {
      return Some(1);
    }
    match a
    case Null => r := None;
    case Bool(x) => r := Some(if x == b.b then 0 else if !x then -1 else 1);
    case Num(x) => r := Some(Int(env, env.round(x - b.n)));
    case Str(x) => r := Some(env.collate(x, b.s));
    case Arr(xs) =>
      var ys := b.items;
      var i := 0;
      while i < |xs| && i < |ys|
        invariant i <= |xs| && i <= |ys|
        invariant CompareItems(env, xs, ys) == CompareItems(env, xs[i..], ys[i..])
      {
        var cmp := CompareObject(env, xs[i], ys[i]);
        if cmp != Some(0) {
          return cmp;
        }
        i := i + 1;
      }
      r := Some(|xs| - |ys|);
    case Obj(m) =>
      var keys := SortKeys(env.collate, m.Keys + b.members.Keys);
      SortingIsUnique(env.collate, keys, SortedKeys(env.collate, m.Keys + b.members.Keys));
      var i := 0;
      while i < |keys|
        invariant i <= |keys|
        invariant Compare(env, a, b) == CompareKeys(env, a, b, keys, i)
      {
        var k := keys[i];
        if k !in m {
          return Some(1);
        }
        if k !in b.members {
          return Some(-1);
        }
        var cmp := CompareObject(env, m[k], b.members[k]);
        if cmp != Some(0) {
          return cmp;
        }
        if i + 1 == |m| || i + 1 == |b.members| {
          return Some(|m| - |b.members|);
        }
        i := i + 1;
      }
      r := None;
  }
}
