/** Order laws of CompareObject, by way of an order on canonical values in which objects are
    key-sorted member lists. */
module CollateLaws {
  import opened Collate
  import opened Wrappers

  /** A value with its objects as key-sorted member lists. */
  datatype Canon =
    | CNull | CBool(b: bool) | CNum(n: real) | CStr(s: string)
    | CArr(items: seq<Canon>) | CObj(members: seq<CMember>)

  datatype CMember = CMember(key: string, value: Canon)

  type Collator = (string, string) -> int

  ghost function Canonical(c: Collator, v: Value): Canon
    requires TotalOrder(c)
    decreases v, 1, 0
  {
    match v
    case Null => CNull
    case Bool(b) => CBool(b)
    case Num(n) => CNum(n)
    case Str(s) => CStr(s)
    case Arr(items) => CArr(CanonItems(c, items))
    case Obj(m) => CObj(CanonMembers(c, v, SortedKeys(c, m.Keys)))
  }

  ghost function CanonItems(c: Collator, items: seq<Value>): (r: seq<Canon>)
    requires TotalOrder(c)
    ensures |r| == |items|
    decreases items, 0, 0
  {
    if items == [] then [] else [Canonical(c, items[0])] + CanonItems(c, items[1..])
  }

  /** The members of an object under the given keys, in that order. */
  ghost function CanonMembers(c: Collator, v: Value, keys: seq<string>): (r: seq<CMember>)
    requires TotalOrder(c) && v.Obj? && forall k :: k in keys ==> k in v.members
    ensures |r| == |keys|
    decreases v, 0, |keys|
  {
    if keys == [] then []
    else [CMember(keys[0], Canonical(c, v.members[keys[0]]))] + CanonMembers(c, v, keys[1..])
  }

  function Sign(n: int): int {
    if n < 0 then -1 else if n > 0 then 1 else 0
  }

  function CTypeOf(x: Canon): int {
    match x
    case CNull => 0 case CBool(_) => 1 case CNum(_) => 2 case CStr(_) => 3 case CArr(_) => 4 case CObj(_) => 5
  }

  /** The order of CouchDB's collation: by type; false before true; numbers by size; strings by
      the collator; arrays and member lists lexicographically, prefixes first; a member by its
      key and then its value. */
  function Order(c: Collator, x: Canon, y: Canon): int
    decreases x, 0
  {
    if CTypeOf(x) != CTypeOf(y) then Sign(CTypeOf(x) - CTypeOf(y))
    else match x
      case CNull => 0
      case CBool(b) => if b == y.b then 0 else if b then 1 else -1
      case CNum(n) => if n < y.n then -1 else if n > y.n then 1 else 0
      case CStr(s) => Sign(c(s, y.s))
      case CArr(items) => OrderItems(c, items, y.items)
      case CObj(members) => OrderMembers(c, members, y.members)
  }

  function OrderItems(c: Collator, xs: seq<Canon>, ys: seq<Canon>): int
    decreases xs, 0
  {
    if xs == [] || ys == [] then Sign(|xs| - |ys|)
    else
      var o := Order(c, xs[0], ys[0]);
      if o != 0 then o else OrderItems(c, xs[1..], ys[1..])
  }

  function OrderMembers(c: Collator, xs: seq<CMember>, ys: seq<CMember>): int
    decreases xs, 0
  {
    if xs == [] || ys == [] then Sign(|xs| - |ys|)
    else
      var o := OrderMember(c, xs[0], ys[0]);
      if o != 0 then o else OrderMembers(c, xs[1..], ys[1..])
  }

  function OrderMember(c: Collator, x: CMember, y: CMember): int
    decreases x, 0
  {
    if c(x.key, y.key) != 0 then Sign(c(x.key, y.key)) else Order(c, x.value, y.value)
  }

  // ---------------------------------------------------------------------------
  // Order is a strict total order
  // ---------------------------------------------------------------------------

  lemma {:induction false} OrderSymmetric(c: Collator, x: Canon, y: Canon)
    requires TotalOrder(c)
    ensures Order(c, x, y) == -Order(c, y, x)
    ensures Order(c, x, y) == 0 <==> x == y
    decreases x, 0
  {
    if CTypeOf(x) == CTypeOf(y) {
      match x
      case CStr(s) => Trichotomy(c, s, y.s);
      case CArr(items) => OrderItemsSymmetric(c, items, y.items);
      case CObj(members) => OrderMembersSymmetric(c, members, y.members);
      case _ =>
    }
  }

  lemma {:induction false} OrderItemsSymmetric(c: Collator, xs: seq<Canon>, ys: seq<Canon>)
    requires TotalOrder(c)
    ensures OrderItems(c, xs, ys) == -OrderItems(c, ys, xs)
    ensures OrderItems(c, xs, ys) == 0 <==> xs == ys
    decreases xs, 0
  {
    if xs != [] && ys != [] {
      OrderSymmetric(c, xs[0], ys[0]);
      OrderItemsSymmetric(c, xs[1..], ys[1..]);
      assert xs == [xs[0]] + xs[1..] && ys == [ys[0]] + ys[1..];
    }
  }

  lemma {:induction false} OrderMembersSymmetric(c: Collator, xs: seq<CMember>, ys: seq<CMember>)
    requires TotalOrder(c)
    ensures OrderMembers(c, xs, ys) == -OrderMembers(c, ys, xs)
    ensures OrderMembers(c, xs, ys) == 0 <==> xs == ys
    decreases xs, 0
  {
    if xs != [] && ys != [] {
      Trichotomy(c, xs[0].key, ys[0].key);
      OrderSymmetric(c, xs[0].value, ys[0].value);
      OrderMembersSymmetric(c, xs[1..], ys[1..]);
      assert xs == [xs[0]] + xs[1..] && ys == [ys[0]] + ys[1..];
    }
  }

  lemma {:induction false} OrderTransitive(c: Collator, x: Canon, y: Canon, z: Canon)
    requires TotalOrder(c) && Order(c, x, y) <= 0 && Order(c, y, z) <= 0
    ensures Order(c, x, z) <= 0
    ensures Order(c, x, z) == 0 ==> Order(c, x, y) == 0 && Order(c, y, z) == 0
    decreases x, 0
  {
    if CTypeOf(x) == CTypeOf(y) == CTypeOf(z) {
      match x
      case CStr(s) => StringsTransitive(c, s, y.s, z.s);
      case CArr(items) => OrderItemsTransitive(c, items, y.items, z.items);
      case CObj(members) => OrderMembersTransitive(c, members, y.members, z.members);
      case _ =>
    }
  }

  lemma {:induction false} StringsTransitive(c: Collator, x: string, y: string, z: string)
    requires TotalOrder(c) && c(x, y) <= 0 && c(y, z) <= 0
    ensures c(x, z) <= 0
    ensures c(x, z) == 0 ==> c(x, y) == 0 && c(y, z) == 0
  {
    Trichotomy(c, x, y);
    Trichotomy(c, y, z);
    Trichotomy(c, x, z);
    if c(x, y) < 0 && c(y, z) < 0 {
      Transitive(c, x, y, z);
    }
  }

  lemma {:induction false} OrderItemsTransitive(c: Collator, xs: seq<Canon>, ys: seq<Canon>, zs: seq<Canon>)
    requires TotalOrder(c) && OrderItems(c, xs, ys) <= 0 && OrderItems(c, ys, zs) <= 0
    ensures OrderItems(c, xs, zs) <= 0
    ensures OrderItems(c, xs, zs) == 0 ==> OrderItems(c, xs, ys) == 0 && OrderItems(c, ys, zs) == 0
    decreases xs, 0
  {
    if xs != [] && ys != [] && zs != [] {
      OrderTransitive(c, xs[0], ys[0], zs[0]);
      if Order(c, xs[0], ys[0]) == 0 && Order(c, ys[0], zs[0]) == 0 {
        OrderSymmetric(c, xs[0], ys[0]);
        OrderItemsTransitive(c, xs[1..], ys[1..], zs[1..]);
      }
    }
  }

  lemma {:induction false} OrderMembersTransitive(c: Collator, xs: seq<CMember>, ys: seq<CMember>, zs: seq<CMember>)
    requires TotalOrder(c) && OrderMembers(c, xs, ys) <= 0 && OrderMembers(c, ys, zs) <= 0
    ensures OrderMembers(c, xs, zs) <= 0
    ensures OrderMembers(c, xs, zs) == 0 ==> OrderMembers(c, xs, ys) == 0 && OrderMembers(c, ys, zs) == 0
    decreases xs, 0
  {
    if xs != [] && ys != [] && zs != [] {
      OrderMemberTransitive(c, xs[0], ys[0], zs[0]);
      if OrderMember(c, xs[0], ys[0]) == 0 && OrderMember(c, ys[0], zs[0]) == 0 {
        OrderMembersTransitive(c, xs[1..], ys[1..], zs[1..]);
      }
    }
  }

  lemma {:induction false} OrderMemberTransitive(c: Collator, x: CMember, y: CMember, z: CMember)
    requires TotalOrder(c) && OrderMember(c, x, y) <= 0 && OrderMember(c, y, z) <= 0
    ensures OrderMember(c, x, z) <= 0
    ensures OrderMember(c, x, z) == 0 <==> OrderMember(c, x, y) == 0 && OrderMember(c, y, z) == 0
    decreases x, 0
  {
    StringsTransitive(c, x.key, y.key, z.key);
    Trichotomy(c, x.key, y.key);
    Trichotomy(c, y.key, z.key);
    if x.key == y.key == z.key {
      OrderTransitive(c, x.value, y.value, z.value);
      OrderSymmetric(c, x.value, y.value);
      OrderSymmetric(c, y.value, z.value);
    }
  }

  // ---------------------------------------------------------------------------
  // CompareObject computes that order
  // ---------------------------------------------------------------------------

  /** Numbers below 2^62: differences of such float64s stay within int64. */
  predicate InRange(n: real) {
    -(MAX_DIFFERENCE as real) / 2.0 <= n <= MAX_DIFFERENCE as real / 2.0
  }

  /** No null, no empty object, and only numbers of the given kind. */
  ghost predicate Over(num: real -> bool, v: Value) {
    match v
    case Null => false
    case Bool(_) | Str(_) => true
    case Num(n) => num(n)
    case Arr(items) => forall i :: 0 <= i < |items| ==> Over(num, items[i])
    case Obj(m) => m != map[] && forall k :: k in m ==> Over(num, m[k])
  }

  /** No empty object, and only numbers of the given kind; nulls are allowed. */
  ghost predicate NullsAndOver(num: real -> bool, v: Value) {
    match v
    case Null | Bool(_) | Str(_) => true
    case Num(n) => num(n)
    case Arr(items) => forall i :: 0 <= i < |items| ==> NullsAndOver(num, items[i])
    case Obj(m) => m != map[] && forall k :: k in m ==> NullsAndOver(num, m[k])
  }

  /** Numbers in range of which any two are one apart, also when their difference is rounded. */
  ghost predicate Spaced(round: real -> real, num: real -> bool) {
    && (forall x :: num(x) ==> InRange(x))
    && (forall x, y :: num(x) && num(y) && x < y ==> round(x - y) <= -1.0)
  }

  lemma {:induction false} SortingLength(c: Collator, keys: seq<string>, s: set<string>)
    requires TotalOrder(c) && IsSorting(c, keys, s)
    ensures |keys| == |s|
    decreases |keys|
  {
    hide TotalOrder;
    if keys == [] {
      assert s == {};
    } else {
      assert keys[0] in keys;
      forall k
        ensures k in keys[1..] <==> k in s - {keys[0]}
      {
        assert keys == [keys[0]] + keys[1..];
        Trichotomy(c, keys[0], keys[0]);
        if k in keys {
          FirstIsLeast(c, keys, k);
        }
      }
      SortingLength(c, keys[1..], s - {keys[0]});
    }
  }

  /** In a sorting, equal keys stand at equal places. */
  lemma {:induction false} Distinct(c: Collator, keys: seq<string>, i: nat, j: nat)
    requires TotalOrder(c) && Sorted(c, keys) && i < |keys| && j < |keys| && keys[i] == keys[j]
    ensures i == j
  {
    hide TotalOrder;
    Trichotomy(c, keys[i], keys[j]);
  }

  /** Where the sorted keys of two objects and of both agree up to i, the next key of both is
      the smaller of the next keys of the two. */
  lemma {:induction false} NextKey(c: Collator, ka: seq<string>, kb: seq<string>, keys: seq<string>, i: nat)
    requires TotalOrder(c) && Sorted(c, ka) && Sorted(c, kb) && Sorted(c, keys)
    requires forall k :: k in keys <==> k in ka || k in kb
    requires i < |ka| && i < |kb| && i <= |keys| && ka[..i] == kb[..i] == keys[..i]
    ensures i < |keys|
    ensures keys[i] in ka ==> keys[i] == ka[i]
    ensures keys[i] !in ka ==> c(keys[i], ka[i]) < 0
  {
    hide TotalOrder;
    assert ka[i] in ka && ka[i] in keys;
    var p :| 0 <= p < |keys| && keys[p] == ka[i];
    if p < i {
      assert keys[p] == keys[..i][p] == ka[..i][p] == ka[p];
      Distinct(c, ka, p, i);
    }
    if keys[i] in ka {
      var r :| 0 <= r < |ka| && ka[r] == keys[i];
      if r < i {
        assert keys[r] == keys[..i][r] == ka[..i][r] == ka[r];
        Distinct(c, keys, r, i);
      }
      if r > i && p > i {
        assert c(ka[i], ka[r]) < 0 && c(keys[i], keys[p]) < 0;
        Trichotomy(c, ka[i], ka[r]);
      }
    }
  }

  /** The answer, unless it is a panic, has the sign of this order. */
  predicate Agrees(r: Option<int>, order: int) {
    r.Some? ==> Sign(r.value) == order
  }

  /** On values over spaced numbers, nulls included: whenever CompareObject does not panic, the sign
      of its result is the order of the canonical values: on objects, of the key-sorted member
      lists. */
  lemma {:induction false} AnswerIsOrder(env: Env, num: real -> bool, a: Value, b: Value)
    requires TotalOrder(env.collate) && IsRounding(env.round) && Spaced(env.round, num)
    requires NullsAndOver(num, a) && NullsAndOver(num, b)
    ensures Agrees(Compare(env, a, b), Order(env.collate, Canonical(env.collate, a), Canonical(env.collate, b)))
    decreases a, 1, 0
  {
    hide IsRounding, Spaced, TotalOrder, SortedKeys;
    if TypeOf(a) == TypeOf(b) {
      match a
      case Num(x) => IntOfDifference(env, num, x, b.n);
      case Arr(items) => AnswerOnItemsIsOrder(env, num, items, b.items);
      case Obj(m) => AnswerOnObjectsIsOrder(env, num, a, b);
      case _ =>
    }
  }

  lemma {:induction false} AnswerOnObjectsIsOrder(env: Env, num: real -> bool, a: Value, b: Value)
    requires TotalOrder(env.collate) && IsRounding(env.round) && Spaced(env.round, num)
    requires NullsAndOver(num, a) && NullsAndOver(num, b) && a.Obj? && b.Obj?
    ensures Agrees(Compare(env, a, b), Order(env.collate, Canonical(env.collate, a), Canonical(env.collate, b)))
    decreases a, 0, |a.members| + |b.members| + 1
  {
    hide IsRounding, Spaced, TotalOrder, SortedKeys, Sorted;
    var c := env.collate;
    var ka, kb := SortedKeys(c, a.members.Keys), SortedKeys(c, b.members.Keys);
    var keys := SortedKeys(c, a.members.Keys + b.members.Keys);
    SortingLength(c, ka, a.members.Keys);
    SortingLength(c, kb, b.members.Keys);
    SortingLength(c, keys, a.members.Keys + b.members.Keys);
    NonEmpty(a.members);
    NonEmpty(b.members);
    assert |keys| <= |a.members| + |b.members|;
    hide CompareKeys, NullsAndOver, OrderMembers;
    AnswerOnKeysIsOrder(env, num, a, b, ka, kb, keys, 0);
    assert ka[0..] == ka && kb[0..] == kb;
  }

  lemma {:induction false} NonEmpty(m: map<string, Value>)
    requires m != map[]
    ensures |m| == |m.Keys| > 0
  {
    var k :| k in m;
    assert m.Keys == {k} + (m.Keys - {k});
  }

  /** The difference of two numbers in range, rounded: it stays within int64, and rounding moves
      it neither across nor away from 1, 0 and -1. */
  lemma {:induction false} RoundedDifference(env: Env, d: real)
    requires IsRounding(env.round) && -(MAX_DIFFERENCE as real) <= d <= MAX_DIFFERENCE as real
    ensures -(MAX_DIFFERENCE as real) <= env.round(d) <= MAX_DIFFERENCE as real
    ensures env.round(-d) == -env.round(d)
    ensures d >= 1.0 ==> env.round(d) >= 1.0
    ensures d <= -1.0 ==> env.round(d) <= -1.0
    ensures d == 0.0 ==> env.round(d) == 0.0
  {
    assert env.round(Eighths(8)) == Eighths(8) == 1.0;
    assert env.round(Eighths(-8)) == Eighths(-8) == -1.0;
    assert env.round(Eighths(0)) == Eighths(0) == 0.0;
    assert env.round(-(MAX_DIFFERENCE as real)) == -(MAX_DIFFERENCE as real);
  }

  lemma {:induction false} IntTruncates(env: Env, x: real)
    requires -(MAX_DIFFERENCE as real) <= x <= MAX_DIFFERENCE as real
    ensures Int(env, x) == if x < 0.0 then -((-x).Floor) else x.Floor
    ensures Int(env, -x) == -Int(env, x)
    ensures x >= 1.0 <==> Int(env, x) > 0
    ensures x <= -1.0 <==> Int(env, x) < 0
  {
    assert -(-x) == x;
  }

  lemma {:induction false} IntOfDifference(env: Env, num: real -> bool, x: real, y: real)
    requires IsRounding(env.round) && Spaced(env.round, num) && num(x) && num(y)
    ensures Sign(Int(env, env.round(x - y))) == (if x < y then -1 else if x > y then 1 else 0)
  {
    RoundedDifference(env, x - y);
    IntTruncates(env, env.round(x - y));
    assert -(x - y) == y - x;
    hide IsRounding, Int;
  }

  lemma {:induction false} AnswerOnItemsIsOrder(env: Env, num: real -> bool, xs: seq<Value>, ys: seq<Value>)
    requires TotalOrder(env.collate) && IsRounding(env.round) && Spaced(env.round, num)
    requires forall i :: 0 <= i < |xs| ==> NullsAndOver(num, xs[i])
    requires forall i :: 0 <= i < |ys| ==> NullsAndOver(num, ys[i])
    ensures Agrees(CompareItems(env, xs, ys),
                   OrderItems(env.collate, CanonItems(env.collate, xs), CanonItems(env.collate, ys)))
    decreases xs, 0, 0
  {
    hide IsRounding, Spaced, TotalOrder;
    if xs != [] && ys != [] {
      AnswerIsOrder(env, num, xs[0], ys[0]);
      AnswerOnItemsIsOrder(env, num, xs[1..], ys[1..]);
    }
  }

  lemma {:induction false} AnswerOnKeysIsOrder(
      env: Env, num: real -> bool, a: Value, b: Value, ka: seq<string>, kb: seq<string>, keys: seq<string>, i: nat)
    requires TotalOrder(env.collate) && IsRounding(env.round) && Spaced(env.round, num)
    requires a.Obj? && b.Obj? && NullsAndOver(num, a) && NullsAndOver(num, b)
    requires IsSorting(env.collate, ka, a.members.Keys) && IsSorting(env.collate, kb, b.members.Keys)
    requires IsSorting(env.collate, keys, a.members.Keys + b.members.Keys)
    requires |ka| == |a.members| && |kb| == |b.members|
    requires i < |ka| && i < |kb| && i <= |keys| && ka[..i] == kb[..i] == keys[..i]
    ensures Agrees(
              CompareKeys(env, a, b, keys, i),
              OrderMembers(env.collate, CanonMembers(env.collate, a, ka[i..]), CanonMembers(env.collate, b, kb[i..])))
    decreases a, 0, |keys| - i
  {
    hide IsRounding, Spaced, TotalOrder, Sorted, Order, Compare;
    var c := env.collate;
    NextKey(c, ka, kb, keys, i);
    NextKey(c, kb, ka, keys, i);
    var k := keys[i];
    assert k in keys;
    OrderOfNextMembers(c, a, b, ka, kb, i);
    if k in a.members && k in b.members {
      hide OrderMembers, CanonMembers;
      AnswerIsOrder(env, num, a.members[k], b.members[k]);
      Trichotomy(c, k, k);
      if i + 1 < |ka| && i + 1 < |kb| {
        PrefixGrows(ka, kb, keys, i);
        AnswerOnKeysIsOrder(env, num, a, b, ka, kb, keys, i + 1);
      } else {
        OrderOfLastMembers(c, a, b, ka, kb, i + 1);
      }
    } else {
      hide OrderMembers, CanonMembers, CompareKeys;
      NextKeysDiffer(env, a, b, ka, kb, keys, i);
    }
  }

  lemma {:induction false} PrefixGrows(ka: seq<string>, kb: seq<string>, keys: seq<string>, i: nat)
    requires i < |ka| && i < |kb| && i < |keys| && ka[..i] == kb[..i] == keys[..i] && ka[i] == kb[i] == keys[i]
    ensures ka[..i + 1] == kb[..i + 1] == keys[..i + 1]
  {
    var k := keys[i];
    assert ka[..i + 1] == ka[..i] + [k] && kb[..i + 1] == kb[..i] + [k] && keys[..i + 1] == keys[..i] + [k];
  }

  /** The members of two objects from the i-th on compare by their i-th members first. */
  lemma {:induction false} OrderOfNextMembers(
      c: Collator, a: Value, b: Value, ka: seq<string>, kb: seq<string>, i: nat)
    requires TotalOrder(c) && a.Obj? && b.Obj?
    requires (forall k :: k in ka ==> k in a.members) && (forall k :: k in kb ==> k in b.members)
    requires i < |ka| && i < |kb|
    ensures OrderMembers(c, CanonMembers(c, a, ka[i..]), CanonMembers(c, b, kb[i..])) ==
            if c(ka[i], kb[i]) != 0 then Sign(c(ka[i], kb[i]))
            else
              var o := Order(c, Canonical(c, a.members[ka[i]]), Canonical(c, b.members[kb[i]]));
              if o != 0 then o
              else OrderMembers(c, CanonMembers(c, a, ka[i + 1..]), CanonMembers(c, b, kb[i + 1..]))
  {
    hide TotalOrder, Order, Canonical;
    assert ka[i..][1..] == ka[i + 1..] && kb[i..][1..] == kb[i + 1..];
    assert ka[i..][0] == ka[i] && kb[i..][0] == kb[i];
  }

  lemma {:induction false} OrderOfLastMembers(
      c: Collator, a: Value, b: Value, ka: seq<string>, kb: seq<string>, i: nat)
    requires TotalOrder(c) && a.Obj? && b.Obj?
    requires (forall k :: k in ka ==> k in a.members) && (forall k :: k in kb ==> k in b.members)
    requires i <= |ka| && i <= |kb| && (i == |ka| || i == |kb|)
    ensures OrderMembers(c, CanonMembers(c, a, ka[i..]), CanonMembers(c, b, kb[i..])) == Sign(|ka| - |kb|)
  {
  }

  /** Where the next keys differ, the object without the smaller one is the greater. */
  lemma {:induction false} NextKeysDiffer(
      env: Env, a: Value, b: Value, ka: seq<string>, kb: seq<string>, keys: seq<string>, i: nat)
    requires TotalOrder(env.collate) && a.Obj? && b.Obj? && i < |keys| && i < |ka| && i < |kb|
    requires keys[i] in a.members || keys[i] in b.members
    requires if keys[i] in a.members then keys[i] == ka[i] else env.collate(keys[i], ka[i]) < 0
    requires if keys[i] in b.members then keys[i] == kb[i] else env.collate(keys[i], kb[i]) < 0
    requires keys[i] !in a.members || keys[i] !in b.members
    ensures CompareKeys(env, a, b, keys, i) == Some(Sign(env.collate(ka[i], kb[i])))
    ensures env.collate(ka[i], kb[i]) != 0
  {
    hide TotalOrder, Compare;
    Trichotomy(env.collate, ka[i], kb[i]);
  }

  // ---------------------------------------------------------------------------
  // Nothing is lost in canonical form
  // ---------------------------------------------------------------------------

  lemma {:induction false} CanonicalIsInjective(c: Collator, a: Value, b: Value)
    requires TotalOrder(c) && Canonical(c, a) == Canonical(c, b)
    ensures a == b
    decreases a, 1, 0
  {
    hide TotalOrder, SortedKeys;
    match a
    case Arr(items) => CanonItemsIsInjective(c, items, b.items);
    case Obj(m) =>
      var ka, kb := SortedKeys(c, m.Keys), SortedKeys(c, b.members.Keys);
      CanonMembersIsInjective(c, a, ka, b, kb);
      assert m.Keys == b.members.Keys by {
        assert forall k :: k in m.Keys <==> k in ka;
        assert forall k :: k in b.members.Keys <==> k in kb;
      }
      assert m == b.members;
    case _ =>
  }

  lemma {:induction false} CanonItemsIsInjective(c: Collator, xs: seq<Value>, ys: seq<Value>)
    requires TotalOrder(c) && CanonItems(c, xs) == CanonItems(c, ys)
    ensures xs == ys
    decreases xs, 0, 0
  {
    hide TotalOrder;
    if xs != [] {
      var cx, cy := CanonItems(c, xs), CanonItems(c, ys);
      assert cx[0] == cy[0] && cx[1..] == cy[1..];
      CanonicalIsInjective(c, xs[0], ys[0]);
      CanonItemsIsInjective(c, xs[1..], ys[1..]);
      assert xs == [xs[0]] + xs[1..] && ys == [ys[0]] + ys[1..];
    }
  }

  lemma {:induction false} CanonMembersIsInjective(c: Collator, a: Value, ka: seq<string>, b: Value, kb: seq<string>)
    requires TotalOrder(c) && a.Obj? && b.Obj?
    requires forall k :: k in ka ==> k in a.members
    requires forall k :: k in kb ==> k in b.members
    requires CanonMembers(c, a, ka) == CanonMembers(c, b, kb)
    ensures ka == kb
    ensures forall k :: k in ka ==> a.members[k] == b.members[k]
    decreases a, 0, |ka|
  {
    hide TotalOrder;
    if ka != [] {
      var ca, cb := CanonMembers(c, a, ka), CanonMembers(c, b, kb);
      assert ca[0] == cb[0] && ca[1..] == cb[1..];
      CanonicalIsInjective(c, a.members[ka[0]], b.members[kb[0]]);
      CanonMembersIsInjective(c, a, ka[1..], b, kb[1..]);
      assert ka == [ka[0]] + ka[1..] && kb == [kb[0]] + kb[1..];
    }
  }

  // ---------------------------------------------------------------------------
  // The order laws of CompareObject
  // ---------------------------------------------------------------------------

  /** On values over spaced numbers without nulls CompareObject does not panic either. */
  lemma {:induction false} CompareIsOrder(env: Env, num: real -> bool, a: Value, b: Value)
    requires TotalOrder(env.collate) && IsRounding(env.round) && Spaced(env.round, num) && Over(num, a) && Over(num, b)
    ensures Compare(env, a, b).Some?
    ensures Sign(Compare(env, a, b).value) == Order(env.collate, Canonical(env.collate, a), Canonical(env.collate, b))
  {
    hide IsRounding, Spaced, TotalOrder, Compare, Order, Canonical, Over, NullsAndOver;
    CleanIsOver(num, a);
    OverMayHaveNulls(num, a);
    OverMayHaveNulls(num, b);
    CleanNeverPanics(env, a, b);
    AnswerIsOrder(env, num, a, b);
  }

  lemma {:induction false} OverMayHaveNulls(num: real -> bool, v: Value)
    requires Over(num, v)
    ensures NullsAndOver(num, v)
  {
    match v
    case Arr(items) =>
      forall i | 0 <= i < |items|
        ensures NullsAndOver(num, items[i])
      {
        OverMayHaveNulls(num, items[i]);
      }
    case Obj(m) =>
      forall k | k in m
        ensures NullsAndOver(num, m[k])
      {
        OverMayHaveNulls(num, m[k]);
      }
    case _ =>
  }

  /** Null comes before every value of another type. */
  lemma {:induction false} NullComesFirst(env: Env, v: Value)
    requires TotalOrder(env.collate) && !v.Null?
    ensures Compare(env, Null, v) == Some(-1) && Compare(env, v, Null) == Some(1)
  {
    hide TotalOrder;
  }

  /** So it does inside arrays, where the first difference decides. */
  lemma {:induction false} NullComesFirstInArrays(env: Env, pre: seq<Value>, v: Value, xs: seq<Value>, ys: seq<Value>)
    requires TotalOrder(env.collate) && IsRounding(env.round) && !v.Null? && Clean(Arr(pre))
    ensures Compare(env, Arr(pre + ([Null] + xs)), Arr(pre + ([v] + ys))) == Some(-1)
    ensures Compare(env, Arr(pre + ([v] + ys)), Arr(pre + ([Null] + xs))) == Some(1)
    decreases |pre|
  {
    hide IsRounding, TotalOrder;
    NullComesFirst(env, v);
    if pre == [] {
      assert pre + ([Null] + xs) == [Null] + xs && pre + ([v] + ys) == [v] + ys;
    } else {
      SelfPanics(env, pre[0]);
      NullComesFirstInArrays(env, pre[1..], v, xs, ys);
      assert (pre + ([Null] + xs))[1..] == pre[1..] + ([Null] + xs);
      assert (pre + ([v] + ys))[1..] == pre[1..] + ([v] + ys);
    }
  }

  /** And inside objects that differ under one key. */
  lemma {:induction false} NullComesFirstInObjects(env: Env, m: map<string, Value>, k: string, v: Value)
    requires TotalOrder(env.collate) && IsRounding(env.round) && !v.Null?
    requires forall x :: x in m && x != k ==> Clean(m[x])
    ensures Compare(env, Obj(m[k := Null]), Obj(m[k := v])) == Some(-1)
    ensures Compare(env, Obj(m[k := v]), Obj(m[k := Null])) == Some(1)
  {
    hide IsRounding, TotalOrder, SortedKeys;
    var a, b := Obj(m[k := Null]), Obj(m[k := v]);
    assert a.members.Keys + b.members.Keys == a.members.Keys == b.members.Keys == b.members.Keys + a.members.Keys;
    var keys := SortedKeys(env.collate, a.members.Keys);
    SortingLength(env.collate, keys, a.members.Keys);
    assert k in keys;
    NullUnderKey(env, a, b, keys, k, 0);
  }

  lemma {:induction false} NullUnderKey(env: Env, a: Value, b: Value, keys: seq<string>, k: string, i: nat)
    requires TotalOrder(env.collate) && IsRounding(env.round) && a.Obj? && b.Obj? && a.members.Keys == b.members.Keys
    requires k in a.members && a.members[k].Null? && !b.members[k].Null?
    requires forall x :: x in a.members && x != k ==> Clean(a.members[x]) && a.members[x] == b.members[x]
    requires (forall x :: x in keys <==> x in a.members) && |keys| == |a.members| == |b.members|
    requires i < |keys| && k in keys[i..]
    ensures CompareKeys(env, a, b, keys, i) == Some(-1) && CompareKeys(env, b, a, keys, i) == Some(1)
    decreases |keys| - i
  {
    hide IsRounding, TotalOrder, Compare;
    if keys[i] == k {
      NullComesFirst(env, b.members[k]);
    } else {
      SelfPanics(env, a.members[keys[i]]);
      assert keys[i..] == [keys[i]] + keys[i + 1..];
      NullUnderKey(env, a, b, keys, k, i + 1);
    }
  }

  /** 0 exactly on equal values, and antisymmetric. */
  lemma {:induction false} CompareIsAntisymmetric(env: Env, num: real -> bool, a: Value, b: Value)
    requires TotalOrder(env.collate) && IsRounding(env.round) && Spaced(env.round, num)
    requires Over(num, a) && Over(num, b)
    ensures Compare(env, a, b).Some? && Compare(env, b, a).Some?
    ensures Compare(env, a, b) == Some(0) <==> a == b
    ensures Compare(env, a, b).value < 0 <==> Compare(env, b, a).value > 0
  {
    hide IsRounding, Spaced, TotalOrder, Compare, Order, Canonical, Over;
    CompareIsOrder(env, num, a, b);
    CompareIsOrder(env, num, b, a);
    OrderSymmetric(env.collate, Canonical(env.collate, a), Canonical(env.collate, b));
    if Compare(env, a, b) == Some(0) {
      CanonicalIsInjective(env.collate, a, b);
    }
  }

  /** Only numbers whose differences stay within int64; anything else goes. */
  ghost predicate Bounded(v: Value) {
    match v
    case Null | Bool(_) | Str(_) => true
    case Num(n) => InRange(n)
    case Arr(items) => forall i :: 0 <= i < |items| ==> Bounded(items[i])
    case Obj(m) => forall k :: k in m ==> Bounded(m[k])
  }

  /** Two answers with opposite signs, or two panics. */
  predicate Opposite(r: Option<int>, r': Option<int>) {
    match (r, r')
    case (Some(x), Some(y)) => Sign(x) == -Sign(y)
    case (None, None) => true
    case _ => false
  }

  /** Swapping the arguments negates the sign, or panics both ways, on all values: fractions, nulls
      and empty objects included. */
  lemma {:induction false} SwappedIsOpposite(env: Env, a: Value, b: Value)
    requires TotalOrder(env.collate) && IsRounding(env.round) && Bounded(a) && Bounded(b)
    ensures Opposite(Compare(env, a, b), Compare(env, b, a))
    decreases a, 1, 0
  {
    hide IsRounding, TotalOrder, SortedKeys;
    if TypeOf(a) == TypeOf(b) {
      match a
      case Num(x) =>
        RoundedDifference(env, x - b.n);
        IntTruncates(env, env.round(x - b.n));
        assert -(x - b.n) == b.n - x;
        hide Int;
      case Str(s) => Trichotomy(env.collate, s, b.s);
      case Arr(items) => SwappedItemsAreOpposite(env, items, b.items);
      case Obj(m) =>
        var keys := SortedKeys(env.collate, m.Keys + b.members.Keys);
        assert m.Keys + b.members.Keys == b.members.Keys + m.Keys;
        assert forall k :: k in keys <==> k in m || k in b.members;
        SwappedKeysAreOpposite(env, a, b, keys, 0);
      case _ =>
    }
  }

  lemma {:induction false} SwappedItemsAreOpposite(env: Env, xs: seq<Value>, ys: seq<Value>)
    requires TotalOrder(env.collate) && IsRounding(env.round)
    requires forall i :: 0 <= i < |xs| ==> Bounded(xs[i])
    requires forall i :: 0 <= i < |ys| ==> Bounded(ys[i])
    ensures Opposite(CompareItems(env, xs, ys), CompareItems(env, ys, xs))
    decreases xs, 0, 0
  {
    hide IsRounding, TotalOrder, Compare;
    if xs != [] && ys != [] {
      SwappedIsOpposite(env, xs[0], ys[0]);
      SwappedItemsAreOpposite(env, xs[1..], ys[1..]);
    }
  }

  lemma {:induction false} SwappedKeysAreOpposite(env: Env, a: Value, b: Value, keys: seq<string>, i: nat)
    requires TotalOrder(env.collate) && IsRounding(env.round) && a.Obj? && b.Obj? && Bounded(a) && Bounded(b)
    requires forall k :: k in keys ==> k in a.members || k in b.members
    ensures Opposite(CompareKeys(env, a, b, keys, i), CompareKeys(env, b, a, keys, i))
    decreases a, 0, |keys| - i
  {
    hide IsRounding, TotalOrder, Compare;
    if i < |keys| {
      var k := keys[i];
      assert k in a.members || k in b.members;
      if k in a.members && k in b.members {
        SwappedIsOpposite(env, a.members[k], b.members[k]);
        SwappedKeysAreOpposite(env, a, b, keys, i + 1);
      }
    }
  }

  lemma {:induction false} CompareIsTransitive(env: Env, num: real -> bool, a: Value, b: Value, d: Value)
    requires TotalOrder(env.collate) && IsRounding(env.round) && Spaced(env.round, num)
    requires Over(num, a) && Over(num, b) && Over(num, d)
    ensures Compare(env, a, b).Some? && Compare(env, b, d).Some? && Compare(env, a, d).Some?
    ensures Compare(env, a, b).value <= 0 && Compare(env, b, d).value <= 0 ==> Compare(env, a, d).value <= 0
    ensures Compare(env, a, b).value < 0 && Compare(env, b, d).value <= 0 ==> Compare(env, a, d).value < 0
    ensures Compare(env, a, b).value <= 0 && Compare(env, b, d).value < 0 ==> Compare(env, a, d).value < 0
  {
    hide IsRounding, Spaced, TotalOrder, Compare, Order, Canonical, Over;
    CompareIsOrder(env, num, a, b);
    CompareIsOrder(env, num, b, d);
    CompareIsOrder(env, num, a, d);
    var c := env.collate;
    if Compare(env, a, b).value <= 0 && Compare(env, b, d).value <= 0 {
      OrderTransitive(c, Canonical(c, a), Canonical(c, b), Canonical(c, d));
    }
  }

  /** CompareObject answers, and with the sign of the canonical order. */
  ghost predicate ComparesRight(env: Env, a: Value, b: Value)
    requires TotalOrder(env.collate)
  {
    && Compare(env, a, b).Some?
    && Sign(Compare(env, a, b).value) == Order(env.collate, Canonical(env.collate, a), Canonical(env.collate, b))
  }

  /** For which numbers CompareObject works: exactly if any two of them are one apart do all
      values over them, with neither null nor an empty object inside, compare as they should. */
  lemma {:induction false} ComparesRightIffSpaced(env: Env, num: real -> bool)
    requires TotalOrder(env.collate) && IsRounding(env.round) && forall x :: num(x) ==> InRange(x)
    ensures Spaced(env.round, num) <==> forall a, b :: Over(num, a) && Over(num, b) ==> ComparesRight(env, a, b)
  {
    hide TotalOrder, IsRounding, Compare, Order, Canonical;
    if Spaced(env.round, num) {
      forall a, b | Over(num, a) && Over(num, b)
        ensures ComparesRight(env, a, b)
      {
        CompareIsOrder(env, num, a, b);
      }
    }
    if forall a, b :: Over(num, a) && Over(num, b) ==> ComparesRight(env, a, b) {
      forall x, y | num(x) && num(y) && x < y
        ensures env.round(x - y) <= -1.0
      {
        assert ComparesRight(env, Num(x), Num(y));
        RightMeansOneApart(env, x, y);
      }
    }
  }

  lemma {:induction false} RightMeansOneApart(env: Env, x: real, y: real)
    requires TotalOrder(env.collate) && IsRounding(env.round) && InRange(x) && InRange(y) && x < y
    requires ComparesRight(env, Num(x), Num(y))
    ensures env.round(x - y) <= -1.0
  {
    hide IsRounding, Int;
    RoundedDifference(env, x - y);
    IntTruncates(env, env.round(x - y));
  }

  predicate IsInteger(n: real) {
    n == n.Floor as real && InRange(n)
  }

  lemma {:induction false} IntegersAreOneApart(x: real, y: real)
    requires IsInteger(x) && IsInteger(y)
    ensures InRange(x) && InRange(y)
    ensures x < y ==> x - y <= -1.0
  {
    assert x - y == (x.Floor - y.Floor) as real;
  }

  /** Integers, for example. */
  lemma {:induction false} IntegersAreSpaced(env: Env)
    requires IsRounding(env.round)
    ensures Spaced(env.round, IsInteger)
  {
    hide IsRounding, IsInteger;
    forall x | IsInteger(x)
      ensures InRange(x)
    {
      IntegersAreOneApart(x, x);
    }
    forall x, y | IsInteger(x) && IsInteger(y) && x < y
      ensures env.round(x - y) <= -1.0
    {
      IntegersAreOneApart(x, y);
      RoundedDifference(env, x - y);
    }
  }

  // ---------------------------------------------------------------------------
  // Where the laws stop
  // ---------------------------------------------------------------------------

  /** Neither a null nor an empty object anywhere. */
  ghost predicate Clean(v: Value) {
    match v
    case Null => false
    case Bool(_) | Str(_) | Num(_) => true
    case Arr(items) => forall i :: 0 <= i < |items| ==> Clean(items[i])
    case Obj(m) => m != map[] && forall k :: k in m ==> Clean(m[k])
  }

  /** CompareObject panics on a null paired with a null and on an empty object paired with an
      empty object, and on nothing else: a value can be compared with every other value if and
      only if it has neither inside. */
  lemma {:induction false} NeverPanicsIffClean(env: Env, a: Value)
    requires TotalOrder(env.collate) && IsRounding(env.round)
    ensures Clean(a) <==> forall b :: Compare(env, a, b).Some?
  {
    hide IsRounding, TotalOrder, Compare;
    if Clean(a) {
      forall b
        ensures Compare(env, a, b).Some?
      {
        CleanNeverPanics(env, a, b);
      }
    } else {
      SelfPanics(env, a);
    }
  }

  lemma {:induction false} CleanNeverPanics(env: Env, a: Value, b: Value)
    requires TotalOrder(env.collate) && Clean(a)
    ensures Compare(env, a, b).Some?
    decreases a, 1, 0
  {
    hide TotalOrder, SortedKeys;
    if TypeOf(a) == TypeOf(b) {
      match a
      case Arr(items) => CleanItemsNeverPanic(env, items, b.items);
      case Obj(m) =>
        var keys := SortedKeys(env.collate, m.Keys + b.members.Keys);
        NonEmpty(m);
        SortingLength(env.collate, keys, m.Keys + b.members.Keys);
        assert m.Keys <= m.Keys + b.members.Keys;
        SubsetSize(m.Keys, m.Keys + b.members.Keys);
        CleanKeysNeverPanic(env, a, b, keys, 0);
      case _ =>
    }
  }

  lemma {:induction false} SubsetSize<T>(s: set<T>, t: set<T>)
    requires s <= t
    ensures |s| <= |t|
  {
    assert t == s + (t - s);
  }

  lemma {:induction false} CleanItemsNeverPanic(env: Env, xs: seq<Value>, ys: seq<Value>)
    requires TotalOrder(env.collate)
    requires forall i :: 0 <= i < |xs| ==> Clean(xs[i])
    ensures CompareItems(env, xs, ys).Some?
    decreases xs, 0, 0
  {
    hide TotalOrder;
    if xs != [] && ys != [] {
      CleanNeverPanics(env, xs[0], ys[0]);
      CleanItemsNeverPanic(env, xs[1..], ys[1..]);
    }
  }

  lemma {:induction false} CleanKeysNeverPanic(env: Env, a: Value, b: Value, keys: seq<string>, i: nat)
    requires TotalOrder(env.collate) && a.Obj? && b.Obj? && Clean(a)
    requires IsSorting(env.collate, keys, a.members.Keys + b.members.Keys)
    requires i < |a.members| <= |keys|
    ensures CompareKeys(env, a, b, keys, i).Some?
    decreases a, 0, |keys| - i
  {
    hide TotalOrder, Sorted;
    var k := keys[i];
    if k in a.members && k in b.members {
      CleanNeverPanics(env, a.members[k], b.members[k]);
      if i + 1 < |a.members| {
        CleanKeysNeverPanic(env, a, b, keys, i + 1);
      }
    }
  }

  /** Compared with itself, a value that is not clean panics; a clean one is equal. */
  lemma {:induction false} SelfPanics(env: Env, a: Value)
    requires TotalOrder(env.collate) && IsRounding(env.round)
    ensures Compare(env, a, a) == if Clean(a) then Some(0) else None
    decreases a, 1, 0
  {
    hide IsRounding, TotalOrder, SortedKeys;
    match a
    case Num(x) => RoundedDifference(env, x - x);
    case Str(s) => Trichotomy(env.collate, s, s);
    case Arr(items) => SelfItemsPanic(env, items);
    case Obj(m) =>
      var keys := SortedKeys(env.collate, m.Keys + m.Keys);
      assert m.Keys + m.Keys == m.Keys;
      SortingLength(env.collate, keys, m.Keys);
      assert forall k :: k in m <==> k in keys;
      if m != map[] {
        NonEmpty(m);
        SelfKeysPanic(env, a, keys, 0);
        assert (forall k :: k in m ==> Clean(m[k])) <==> (forall j :: 0 <= j < |keys| ==> Clean(m[keys[j]]));
      }
    case _ =>
  }

  lemma {:induction false} SelfItemsPanic(env: Env, xs: seq<Value>)
    requires TotalOrder(env.collate) && IsRounding(env.round)
    ensures CompareItems(env, xs, xs) == if forall i :: 0 <= i < |xs| ==> Clean(xs[i]) then Some(0) else None
    decreases xs, 0, 0
  {
    hide IsRounding, TotalOrder;
    if xs != [] {
      SelfPanics(env, xs[0]);
      SelfItemsPanic(env, xs[1..]);
      assert xs == [xs[0]] + xs[1..];
    }
  }

  lemma {:induction false} SelfKeysPanic(env: Env, a: Value, keys: seq<string>, i: nat)
    requires TotalOrder(env.collate) && IsRounding(env.round) && a.Obj? && (forall k :: k in keys <==> k in a.members)
    requires i < |keys| == |a.members|
    ensures CompareKeys(env, a, a, keys, i) ==
            if forall j :: i <= j < |keys| ==> Clean(a.members[keys[j]]) then Some(0) else None
    decreases a, 0, |keys| - i
  {
    hide IsRounding, TotalOrder;
    SelfPanics(env, a.members[keys[i]]);
    if i + 1 < |keys| {
      SelfKeysPanic(env, a, keys, i + 1);
    }
  }

  /** int(a - b) truncates the rounded difference: numbers compare equal exactly if it is less
      than one in size.  Then they are less than one apart, and numbers less than one apart whose
      difference a float64 holds exactly compare equal. */
  lemma {:induction false} NumbersWithinOneAreEqual(env: Env, x: real, y: real)
    requires TotalOrder(env.collate) && IsRounding(env.round)
    requires -(MAX_DIFFERENCE as real) <= x - y <= MAX_DIFFERENCE as real
    ensures Compare(env, Num(x), Num(y)) == Some(0) <==> -1.0 < env.round(x - y) < 1.0
    ensures Compare(env, Num(x), Num(y)) == Some(0) ==> -1.0 < x - y < 1.0
    ensures -1.0 < x - y < 1.0 && env.round(x - y) == x - y ==> Compare(env, Num(x), Num(y)) == Some(0)
  {
    hide IsRounding, Int;
    RoundedDifference(env, x - y);
    IntTruncates(env, env.round(x - y));
  }

  /** So with fractions "equal" is not transitive. */
  lemma {:induction false} FractionsAreNotTransitive(env: Env)
    requires TotalOrder(env.collate) && IsRounding(env.round)
    ensures Compare(env, Num(0.25), Num(0.875)) == Some(0)
    ensures Compare(env, Num(0.875), Num(1.5)) == Some(0)
    ensures Compare(env, Num(0.25), Num(1.5)) == Some(-1)
  {
    assert env.round(Eighths(-5)) == Eighths(-5) == 0.25 - 0.875 == 0.875 - 1.5;
    assert env.round(Eighths(-10)) == Eighths(-10) == 0.25 - 1.5;
    assert (0.625).Floor == 0 && (1.25).Floor == 1;
  }

  /** All numbers inside are of the given kind; nulls and empty objects are allowed. */
  ghost predicate NumbersIn(num: real -> bool, v: Value) {
    match v
    case Null | Bool(_) | Str(_) => true
    case Num(n) => num(n)
    case Arr(items) => forall i :: 0 <= i < |items| ==> NumbersIn(num, items[i])
    case Obj(m) => forall k :: k in m ==> NumbersIn(num, m[k])
  }

  lemma {:induction false} CleanIsOver(num: real -> bool, v: Value)
    ensures Over(num, v) <==> Clean(v) && NumbersIn(num, v)
  {
    match v
    case Arr(items) =>
      forall i | 0 <= i < |items|
        ensures Over(num, items[i]) <==> Clean(items[i]) && NumbersIn(num, items[i])
      {
        CleanIsOver(num, items[i]);
      }
    case Obj(m) =>
      forall k | k in m
        ensures Over(num, m[k]) <==> Clean(m[k]) && NumbersIn(num, m[k])
      {
        CleanIsOver(num, m[k]);
      }
    case _ =>
  }

  /** For every set of values over numbers that are one apart: all pairs of them compare as they
      should exactly if none has a null or an empty object inside. */
  lemma {:induction false} ComparesRightIffClean(env: Env, num: real -> bool, values: iset<Value>)
    requires TotalOrder(env.collate) && IsRounding(env.round) && Spaced(env.round, num)
    requires forall v :: v in values ==> NumbersIn(num, v)
    ensures (forall a, b :: a in values && b in values ==> ComparesRight(env, a, b)) <==>
            forall v :: v in values ==> Clean(v)
  {
    hide TotalOrder, IsRounding, Spaced, Compare, Order, Canonical, Clean, NumbersIn, Over;
    if forall v :: v in values ==> Clean(v) {
      forall a, b | a in values && b in values
        ensures ComparesRight(env, a, b)
      {
        CleanIsOver(num, a);
        CleanIsOver(num, b);
        CompareIsOrder(env, num, a, b);
      }
    }
    if forall a, b :: a in values && b in values ==> ComparesRight(env, a, b) {
      forall v | v in values
        ensures Clean(v)
      {
        assert ComparesRight(env, v, v);
        SelfPanics(env, v);
      }
    }
  }

  /** An empty object sorts behind every other object, where as a prefix of every member list
      it would come first. */
  lemma {:induction false} EmptyObjectSortsLast(env: Env, m: map<string, Value>)
    requires TotalOrder(env.collate) && m != map[]
    ensures Compare(env, Obj(map[]), Obj(m)) == Some(1) && Compare(env, Obj(m), Obj(map[])) == Some(-1)
    ensures Order(env.collate, Canonical(env.collate, Obj(map[])), Canonical(env.collate, Obj(m))) == -1
  {
    var c := env.collate;
    hide TotalOrder, SortedKeys;
    var empty: map<string, Value> := map[];
    assert empty.Keys + m.Keys == m.Keys == m.Keys + empty.Keys;
    NonEmpty(m);
    SortingLength(c, SortedKeys(c, m.Keys), m.Keys);
    SortingLength(c, SortedKeys(c, empty.Keys), {});
  }

  // ---------------------------------------------------------------------------
  // There are such collators and roundings
  // ---------------------------------------------------------------------------

  /** Strings by their characters, a prefix first. */
  function ByCharacter(a: string, b: string): int
    decreases |a|
  {
    if a == "" || b == "" then |a| - |b|
    else if a[0] != b[0] then a[0] as int - b[0] as int
    else ByCharacter(a[1..], b[1..])
  }

  lemma {:induction false} ByCharacterSwapped(a: string, b: string)
    ensures ByCharacter(a, b) == -ByCharacter(b, a)
    ensures ByCharacter(a, b) == 0 <==> a == b
    decreases |a|
  {
    if a != "" && b != "" && a[0] == b[0] {
      ByCharacterSwapped(a[1..], b[1..]);
      assert a == [a[0]] + a[1..] && b == [b[0]] + b[1..];
    }
  }

  lemma {:induction false} ByCharacterTransitive(a: string, b: string, d: string)
    requires ByCharacter(a, b) < 0 && ByCharacter(b, d) < 0
    ensures ByCharacter(a, d) < 0
    decreases |a|
  {
    if a != "" && b != "" && d != "" && a[0] == b[0] == d[0] {
      ByCharacterTransitive(a[1..], b[1..], d[1..]);
    }
  }

  /** What the laws ask of the collator and of rounding can be met. */
  lemma {:induction false} AssumptionsCanBeMet()
    ensures TotalOrder(ByCharacter) && IsRounding(x => x)
  {
    forall a, b
      ensures ByCharacter(a, b) == 0 <==> a == b
      ensures ByCharacter(a, b) < 0 <==> ByCharacter(b, a) > 0
    {
      ByCharacterSwapped(a, b);
    }
    forall a, b, d | ByCharacter(a, b) < 0 && ByCharacter(b, d) < 0
      ensures ByCharacter(a, d) < 0
    {
      ByCharacterTransitive(a, b, d);
    }
  }
}
