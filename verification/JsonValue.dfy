/** JSON values as trees: lookup, equality and deep copy (parson.c). */
module JsonValue {
  import opened Common

  datatype Member = Member(name: string, value: Value)

  datatype Value =
    | Null
    | Boolean(b: bool)
    | Number(n: real)
    | String(s: string)
    | Array(items: seq<Value>)
    | Object(members: seq<Member>)

  function Names(ms: seq<Member>): set<string> {
    set m | m in ms :: m.name
  }

  predicate DistinctNames(ms: seq<Member>) {
    forall i, j :: 0 <= i < j < |ms| ==> ms[i].name != ms[j].name
  }

  /** json_object_getn_value: the value of the first member with this name. */
  function Lookup(ms: seq<Member>, name: string): (r: Option<Value>)
    ensures r.Some? ==> Member(name, r.value) in ms
    ensures r.Some? <==> name in Names(ms)
  {
    if ms == [] then None
    else if ms[0].name == name then Some(ms[0].value)
    else
      assert forall m :: m in ms <==> m == ms[0] || m in ms[1..];
      Lookup(ms[1..], name)
  }

  lemma {:induction false} LookupAt(ms: seq<Member>, i: nat)
    requires i < |ms| && DistinctNames(ms)
    ensures Lookup(ms, ms[i].name) == Some(ms[i].value)
  {
    if i > 0 {
      LookupAt(ms[1..], i - 1);
    }
  }

  /** What the object operations guarantee of every tree: in each object no name occurs twice. */
  predicate Unambiguous(v: Value) {
    match v
    case Array(items) => forall x | x in items :: Unambiguous(x)
    case Object(ms) => DistinctNames(ms) && forall m | m in ms :: Unambiguous(m.value)
    case _ => true
  }

  // ---------------------------------------------------------------------------------------------
  // Equality (json_value_equals)

  predicate Close(x: real, y: real) {
    (if x < y then y - x else x - y) < 0.000001
  }

  /** json_value_equals: an object comparison walks the names of the first object only. */
  predicate Equals(a: Value, b: Value)
    decreases a
  {
    match (a, b)
    case (Null, Null) => true
    case (Boolean(x), Boolean(y)) => x == y
    case (Number(x), Number(y)) => Close(x, y)
    case (String(x), String(y)) => x == y
    case (Array(xs), Array(ys)) => |xs| == |ys| && forall i | 0 <= i < |xs| :: Equals(xs[i], ys[i])
    case (Object(xs), Object(ys)) => |xs| == |ys| && forall m | m in xs :: EqualsAt(xs, ys, m.name)
    case _ => false
  }

  /** The comparison of the two values looked up under one name. */
  predicate EqualsAt(xs: seq<Member>, ys: seq<Member>, name: string)
    decreases xs
  {
    var x, y := Lookup(xs, name), Lookup(ys, name);
    if x.Some? && y.Some? then
      assert Member(name, x.value) in xs;
      Equals(x.value, y.value)
    else x.None? && y.None?
  }

  method ValueEquals(a: Value, b: Value) returns (r: bool)
    ensures r == Equals(a, b)
    decreases a
  {
    match (a, b) {
      case (Array(xs), Array(ys)) =>
        if |xs| != |ys| {
          return false;
        }
        for i := 0 to |xs|
          invariant forall k | 0 <= k < i :: Equals(xs[k], ys[k])
        {
          var same := ValueEquals(xs[i], ys[i]);
          if !same {
            return false;
          }
        }
        return true;
      case (Object(xs), Object(ys)) =>
        if |xs| != |ys| {
          return false;
        }
        for i := 0 to |xs|
          invariant forall k | 0 <= k < i :: EqualsAt(xs, ys, xs[k].name)
        {
          var x, y := Lookup(xs, xs[i].name), Lookup(ys, xs[i].name);
          assert xs[i] in xs;
          if y.None? {
            assert !EqualsAt(xs, ys, xs[i].name);
            return false;
          }
          var same := ValueEquals(x.value, y.value);
          if !same {
            assert !EqualsAt(xs, ys, xs[i].name);
            return false;
          }
        }
        return true;
      case (String(x), String(y)) => return x == y;
      case (Boolean(x), Boolean(y)) => return x == y;
      case (Number(x), Number(y)) => return Close(x, y);
      case (Null, Null) => return true;
      case _ => return false;
    }
  }

  /** Distinct names: as many names as members. */
  lemma {:induction false} CountNames(ms: seq<Member>)
    requires DistinctNames(ms)
    ensures |Names(ms)| == |ms|
  {
    if ms != [] {
      CountNames(ms[1..]);
      assert Names(ms) == {ms[0].name} + Names(ms[1..]);
      assert ms[0].name !in Names(ms[1..]);
    }
  }

  lemma SubsetOfSameSize(a: set<string>, b: set<string>)
    requires a <= b && |a| == |b|
    ensures a == b
  {
    assert b == a + (b - a);
    assert |b| == |a| + |b - a|;
  }

  /** The one-sided walk decides the two-sided question: same names, and equal values under each of them. */
  lemma ObjectEquality(xs: seq<Member>, ys: seq<Member>)
    requires DistinctNames(xs) && DistinctNames(ys)
    ensures Equals(Object(xs), Object(ys)) <==>
            Names(xs) == Names(ys) && forall name | name in Names(xs) :: EqualsAt(xs, ys, name)
  {
    CountNames(xs);
    CountNames(ys);
    if Equals(Object(xs), Object(ys)) {
      forall name | name in Names(xs) ensures name in Names(ys) && EqualsAt(xs, ys, name) {
        var m :| m in xs && m.name == name;
        assert EqualsAt(xs, ys, m.name);
      }
      SubsetOfSameSize(Names(xs), Names(ys));
    }
  }

  lemma {:induction false} EqualsReflexive(v: Value)
    requires Unambiguous(v)
    ensures Equals(v, v)
    decreases v
  {
    match v
    case Array(items) =>
      forall i | 0 <= i < |items| ensures Equals(items[i], items[i]) {
        EqualsReflexive(items[i]);
      }
    case Object(ms) =>
      forall m | m in ms ensures EqualsAt(ms, ms, m.name) {
        var found := Member(m.name, Lookup(ms, m.name).value);
        assert found in ms;
        EqualsReflexive(found.value);
      }
    case _ =>
  }

  lemma {:induction false} EqualsSymmetric(a: Value, b: Value)
    requires Unambiguous(a) && Unambiguous(b) && Equals(a, b)
    ensures Equals(b, a)
    decreases a
  {
    match (a, b)
    case (Array(xs), Array(ys)) =>
      forall i | 0 <= i < |xs| ensures Equals(ys[i], xs[i]) {
        EqualsSymmetric(xs[i], ys[i]);
      }
    case (Object(xs), Object(ys)) =>
      ObjectEquality(xs, ys);
      ObjectEquality(ys, xs);
      forall name | name in Names(ys) ensures EqualsAt(ys, xs, name) {
        assert EqualsAt(xs, ys, name);
        var x, y := Member(name, Lookup(xs, name).value), Member(name, Lookup(ys, name).value);
        assert x in xs && y in ys;
        EqualsSymmetric(x.value, y.value);
      }
    case _ =>
  }

  /** Lookup does not depend on the order of the members. */
  lemma LookupIgnoresOrder(xs: seq<Member>, ys: seq<Member>, name: string)
    requires DistinctNames(xs) && DistinctNames(ys)
    requires forall m :: m in xs <==> m in ys
    ensures Lookup(xs, name) == Lookup(ys, name)
  {
    if name in Names(xs) {
      var i :| 0 <= i < |xs| && xs[i].name == name;
      assert xs[i] in ys;
      var j :| 0 <= j < |ys| && ys[j] == xs[i];
      LookupAt(xs, i);
      LookupAt(ys, j);
    }
  }

  /** Two objects with the same members in any order are equal, and compare alike with everything else. */
  lemma EqualsIgnoresOrder(xs: seq<Member>, ys: seq<Member>, other: Value)
    requires Unambiguous(Object(xs)) && Unambiguous(Object(ys))
    requires multiset(xs) == multiset(ys)
    ensures Equals(Object(xs), Object(ys))
    ensures Equals(Object(xs), other) <==> Equals(Object(ys), other)
    ensures Equals(other, Object(xs)) <==> Equals(other, Object(ys))
  {
    forall m ensures m in xs <==> m in ys {
      assert m in xs <==> m in multiset(xs);
      assert m in ys <==> m in multiset(ys);
    }
    assert |xs| == |multiset(xs)| && |ys| == |multiset(ys)|;
    forall name ensures Lookup(xs, name) == Lookup(ys, name) {
      LookupIgnoresOrder(xs, ys, name);
    }
    EqualsReflexive(Object(xs));
    forall m | m in xs ensures EqualsAt(xs, ys, m.name) {
      assert EqualsAt(xs, xs, m.name);
    }
    if other.Object? {
      var zs := other.members;
      assert forall name :: EqualsAt(xs, zs, name) == EqualsAt(ys, zs, name);
      assert forall name :: EqualsAt(zs, xs, name) == EqualsAt(zs, ys, name);
    }
  }

  /** The tolerance on numbers keeps the comparison from being transitive. */
  lemma EqualsIsNotTransitive()
    ensures Equals(Number(0.0), Number(0.0000009)) && Equals(Number(0.0000009), Number(0.0000018))
    ensures !Equals(Number(0.0), Number(0.0000018))
  {
  }

  /** The numbers of a tree all belong to a set. */
  predicate NumbersIn(v: Value, ok: real -> bool) {
    match v
    case Number(n) => ok(n)
    case Array(items) => forall x | x in items :: NumbersIn(x, ok)
    case Object(ms) => forall m | m in ms :: NumbersIn(m.value, ok)
    case _ => true
  }

  ghost predicate CloseIsTransitive(ok: real -> bool) {
    forall x, y, z {:trigger ok(x), ok(y), ok(z)} |
      ok(x) && ok(y) && ok(z) && Close(x, y) && Close(y, z) :: Close(x, z)
  }

  ghost predicate EqualsIsTransitive(ok: real -> bool) {
    forall a, b, c {:trigger Equals(a, b), Equals(b, c)} |
      Unambiguous(a) && Unambiguous(b) && Unambiguous(c) && NumbersIn(a, ok) && NumbersIn(b, ok) && NumbersIn(c, ok) &&
      Equals(a, b) && Equals(b, c) :: Equals(a, c)
  }

  lemma {:induction false} EqualsChain(a: Value, b: Value, c: Value, ok: real -> bool)
    requires Unambiguous(a) && Unambiguous(b) && Unambiguous(c) && NumbersIn(a, ok) && NumbersIn(b, ok) && NumbersIn(c, ok)
    requires CloseIsTransitive(ok) && Equals(a, b) && Equals(b, c)
    ensures Equals(a, c)
    decreases a
  {
    match (a, b, c)
    case (Array(xs), Array(ys), Array(zs)) =>
      forall i | 0 <= i < |xs| ensures Equals(xs[i], zs[i]) {
        EqualsChain(xs[i], ys[i], zs[i], ok);
      }
    case (Object(xs), Object(ys), Object(zs)) =>
      ObjectEquality(xs, ys);
      ObjectEquality(ys, zs);
      ObjectEquality(xs, zs);
      forall name | name in Names(xs) ensures EqualsAt(xs, zs, name) {
        MemberChain(xs, ys, zs, name, ok);
      }
    case _ =>
  }

  lemma {:induction false} MemberChain(xs: seq<Member>, ys: seq<Member>, zs: seq<Member>, name: string, ok: real -> bool)
    requires Unambiguous(Object(xs)) && Unambiguous(Object(ys)) && Unambiguous(Object(zs)) && CloseIsTransitive(ok)
    requires NumbersIn(Object(xs), ok) && NumbersIn(Object(ys), ok) && NumbersIn(Object(zs), ok)
    requires name in Names(xs) && name in Names(ys) && name in Names(zs)
    requires EqualsAt(xs, ys, name) && EqualsAt(ys, zs, name)
    ensures EqualsAt(xs, zs, name)
    decreases xs
  {
    var x, y, z := Member(name, Lookup(xs, name).value), Member(name, Lookup(ys, name).value), Member(name, Lookup(zs, name).value);
    assert x in xs && y in ys && z in zs;
    EqualsChain(x.value, y.value, z.value, ok);
  }

  /**
    * Comparison is transitive on the trees over a set of numbers exactly when closeness is on the set: no two of its
    * numbers that are too far apart are both close to a third.
    */
  lemma EqualsTransitiveExactly(ok: real -> bool)
    ensures EqualsIsTransitive(ok) <==> CloseIsTransitive(ok)
  {
    if CloseIsTransitive(ok) {
      forall a, b, c |
        Unambiguous(a) && Unambiguous(b) && Unambiguous(c) && NumbersIn(a, ok) && NumbersIn(b, ok) && NumbersIn(c, ok) &&
        Equals(a, b) && Equals(b, c)
        ensures Equals(a, c)
      {
        EqualsChain(a, b, c, ok);
      }
    }
    if EqualsIsTransitive(ok) {
      forall x, y, z | ok(x) && ok(y) && ok(z) && Close(x, y) && Close(y, z) ensures Close(x, z) {
        assert Equals(Number(x), Number(y)) && Equals(Number(y), Number(z));
        assert Equals(Number(x), Number(z));
      }
    }
  }

  /** It is so on numbers that are equal or at least a millionth apart, integers among them. */
  lemma ApartIsTransitive(ok: real -> bool)
    requires forall x, y | ok(x) && ok(y) :: x == y || x - y >= 0.000001 || y - x >= 0.000001
    ensures EqualsIsTransitive(ok)
  {
    EqualsTransitiveExactly(ok);
  }

  lemma WholeAreApart(x: real, y: real)
    requires x == x.Floor as real && y == y.Floor as real && x != y
    ensures x - y >= 1.0 || y - x >= 1.0
  {
    if x.Floor < y.Floor {
      assert y.Floor - x.Floor >= 1;
    } else {
      assert x.Floor - y.Floor >= 1;
    }
  }

  lemma IntegersAreTransitive(ok: real -> bool)
    requires forall x | ok(x) :: x == x.Floor as real
    ensures EqualsIsTransitive(ok)
  {
    forall x, y | ok(x) && ok(y) && x != y ensures x - y >= 0.000001 || y - x >= 0.000001 {
      WholeAreApart(x, y);
    }
    ApartIsTransitive(ok);
  }

  // ---------------------------------------------------------------------------------------------
  // Deep copy (json_value_deep_copy)

  /** json_object_add on the member list: refused when the name is taken. */
  function AddMember(ms: seq<Member>, name: string, value: Value): Option<seq<Member>> {
    if Lookup(ms, name).Some? then None else Some(ms + [Member(name, value)])
  }

  /** Copies a tree member by member; it succeeds, with the same tree, exactly when no object repeats a name. */
  method DeepCopy(v: Value) returns (r: Option<Value>)
    ensures r == if Unambiguous(v) then Some(v) else None
    decreases v
  {
    match v {
      case Array(items) =>
        var copy: seq<Value> := [];
        for i := 0 to |items|
          invariant copy == items[..i]
          invariant forall x | x in copy :: Unambiguous(x)
        {
          var item := DeepCopy(items[i]);
          if item.None? {
            return None;
          }
          copy := copy + [item.value];
        }
        assert copy == items;
        return Some(Array(copy));
      case Object(ms) =>
        var copy: seq<Member> := [];
        for i := 0 to |ms|
          invariant copy == ms[..i] && DistinctNames(copy)
          invariant forall m | m in copy :: Unambiguous(m.value)
        {
          var found := Lookup(ms, ms[i].name);
          assert Member(ms[i].name, found.value) in ms;
          var value := DeepCopy(found.value);
          if value.None? {
            return None;
          }
          var added := AddMember(copy, ms[i].name, value.value);
          if added.None? {
            return None;
          }
          FirstIsOwn(ms, i);
          copy := added.value;
        }
        assert copy == ms;
        return Some(Object(copy));
      case _ => return Some(v);
    }
  }

  lemma {:induction false} FirstIsOwn(ms: seq<Member>, i: nat)
    requires i < |ms| && Lookup(ms[..i], ms[i].name).None?
    ensures Lookup(ms, ms[i].name) == Some(ms[i].value)
  {
    if i > 0 {
      assert ms[..i][1..] == ms[1..][..i - 1];
      assert ms[0] in ms[..i];
      FirstIsOwn(ms[1..], i - 1);
    }
  }
}
