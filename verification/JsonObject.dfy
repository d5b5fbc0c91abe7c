/** The member table of a JSON object: growing by doubling, removing by moving the last entry (parson.c). */
module JsonObject {
  import opened Common
  import opened JsonValue

  const STARTING_CAPACITY: nat := 16

  // ---------------------------------------------------------------------------------------------
  // The table as a list of members

  /** The index of the member with this name, or the number of members. */
  function IndexOf(ms: seq<Member>, name: string): (i: nat)
    ensures i <= |ms| && (i < |ms| ==> ms[i].name == name)
    ensures forall k | 0 <= k < i :: ms[k].name != name
  {
    FirstIndex(ms, (m: Member) => m.name == name)
  }

  /** The last member takes the place of member i. */
  function RemoveAt(ms: seq<Member>, i: nat): (r: seq<Member>)
    requires i < |ms|
    ensures |r| == |ms| - 1
  {
    if i == |ms| - 1 then ms[..i] else ms[..|ms| - 1][i := ms[|ms| - 1]]
  }

  function RemoveMember(ms: seq<Member>, name: string): Option<seq<Member>> {
    var i := IndexOf(ms, name);
    if i == |ms| then None else Some(RemoveAt(ms, i))
  }

  /** A member of that name is overwritten in its place, else one is added at the end. */
  function SetMember(ms: seq<Member>, name: string, value: Value): seq<Member> {
    var i := IndexOf(ms, name);
    if i < |ms| then ms[i := Member(name, value)] else ms + [Member(name, value)]
  }

  lemma {:induction false} LookupIsIndexOf(ms: seq<Member>, name: string)
    ensures Lookup(ms, name) == if IndexOf(ms, name) == |ms| then None else Some(ms[IndexOf(ms, name)].value)
  {
    if ms != [] && ms[0].name != name {
      LookupIsIndexOf(ms[1..], name);
    }
  }

  // ---------------------------------------------------------------------------------------------
  // The table as arrays

  class Table {
    var names: array?<string>
    var values: array?<Value>
    var count: nat
    var capacity: nat
    ghost var members: seq<Member>

    ghost predicate Valid()
      reads this, names, values
    {
      count == |members| <= capacity && DistinctNames(members) &&
      (if names == null || values == null then names == null && values == null && capacity == 0
       else names.Length == values.Length == capacity &&
            forall i | 0 <= i < count :: names[i] == members[i].name && values[i] == members[i].value)
    }

    /** The heap the table may write: itself and its two arrays. */
    ghost function Repr(): set<object?>
      reads this
    {
      {this, names, values}
    }

    constructor ()
      ensures Valid() && members == [] && capacity == 0 && fresh(Repr() - {null})
    {
      names, values, count, capacity, members := null, null, 0, 0, [];
    }

    /** The loop that all operations share: the index of a name, or count. */
    method Search(name: string) returns (i: nat)
      requires Valid()
      ensures i == IndexOf(members, name)
    {
      i := 0;
      while i < count && names[i] != name
        invariant i <= IndexOf(members, name)
      {
        assert members[i].name != name;
        i := i + 1;
      }
    }

    /** json_object_getn_value. */
    method Get(name: string) returns (r: Option<Value>)
      requires Valid()
      ensures r == Lookup(members, name)
    {
      LookupIsIndexOf(members, name);
      var i := Search(name);
      return if i < count then Some(values[i]) else None;
    }

    /** json_object_resize: fails only for a capacity of zero. */
    method Resize(newCapacity: nat) returns (ok: bool)
      requires Valid() && (newCapacity == 0 || count <= newCapacity)
      modifies this
      ensures Valid() && members == old(members) && count == old(count)
      ensures ok <==> newCapacity != 0
      ensures if ok then capacity == newCapacity && fresh(names) && fresh(values)
              else capacity == old(capacity) && names == old(names) && values == old(values)
    {
      if newCapacity == 0 {
        return false;
      }
      var newNames, newValues := new string[newCapacity], new Value[newCapacity];
      for i := 0 to count
        modifies newNames, newValues
        invariant forall k | 0 <= k < i :: newNames[k] == members[k].name && newValues[k] == members[k].value
      {
        newNames[i], newValues[i] := names[i], values[i];
      }
      names, values, capacity := newNames, newValues, newCapacity;
      return true;
    }

    /** json_object_addn: refused when the name is taken; doubles the capacity of a full table. */
    method Add(name: string, value: Value) returns (ok: bool)
      requires Valid()
      modifies Repr()
      ensures Valid() && fresh(Repr() - old(Repr()))
      ensures ok <==> AddMember(old(members), name, value).Some?
      ensures members == if ok then AddMember(old(members), name, value).value else old(members)
      ensures capacity == if ok && old(count == capacity) then Max(2 * old(capacity), STARTING_CAPACITY) else old(capacity)
    {
      var present := Get(name);
      if present.Some? {
        return false;
      }
      if count >= capacity {
        var resized := Resize(Max(capacity * 2, STARTING_CAPACITY));
      }
      Append(name, value);
      return true;
    }

    /** The last part of json_object_addn. */
    method Append(name: string, value: Value)
      requires Valid() && count < capacity && Lookup(members, name).None?
      modifies this, names, values
      ensures Valid() && members == old(members) + [Member(name, value)]
      ensures capacity == old(capacity) && names == old(names) && values == old(values)
    {
      forall i | 0 <= i < count ensures members[i].name != name {
        assert members[i] in members;
      }
      names[count] := name;
      values[count] := value;
      count := count + 1;
      members := members + [Member(name, value)];
    }

    /** json_object_set_value; attached says that the value already has a parent. */
    method Set(name: string, value: Value, attached: bool) returns (ok: bool)
      requires Valid()
      modifies Repr()
      ensures Valid() && fresh(Repr() - old(Repr()))
      ensures ok <==> !attached
      ensures members == if ok then SetMember(old(members), name, value) else old(members)
    {
      if attached {
        return false;
      }
      LookupIsIndexOf(members, name);
      var i := Search(name);
      if i < count {
        values[i] := value;
        members := members[i := Member(name, value)];
        return true;
      }
      ok := Add(name, value);
    }

    /** json_object_remove_internal. */
    method Remove(name: string) returns (ok: bool)
      requires Valid()
      modifies Repr()
      ensures Valid() && Repr() == old(Repr()) && capacity == old(capacity)
      ensures ok <==> RemoveMember(old(members), name).Some?
      ensures members == if ok then RemoveMember(old(members), name).value else old(members)
    {
      var i := Search(name);
      if i == count {
        return false;
      }
      var last := count - 1;
      if i != last {
        names[i] := names[last];
        values[i] := values[last];
      }
      count := count - 1;
      members := RemoveAt(members, i);
      return true;
    }

    /** json_object_clear. */
    method Clear()
      requires Valid()
      modifies this
      ensures Valid() && members == [] && capacity == old(capacity) && Repr() == old(Repr())
    {
      count, members := 0, [];
    }

    /** Any sequence of operations, from any table. */
    method Perform(ops: seq<Op>)
      requires Valid()
      modifies Repr()
      ensures Valid() && members == Run(old(members), ops)
    {
      for i := 0 to |ops|
        invariant Valid() && fresh(Repr() - old(Repr()))
        invariant Run(old(members), ops) == Run(members, ops[i..])
      {
        assert ops[i..][0] == ops[i] && ops[i..][1..] == ops[i + 1..];
        match ops[i] {
          case Add(name, value) => var ok := Add(name, value);
          case Set(name, value) => var ok := Set(name, value, false);
          case Remove(name) => var ok := Remove(name);
          case Clear => Clear();
        }
      }
    }
  }

  // ---------------------------------------------------------------------------------------------
  // The table refines a finite map

  datatype Op = Add(name: string, value: Value) | Set(name: string, value: Value) | Remove(name: string) | Clear

  function Apply(ms: seq<Member>, op: Op): seq<Member> {
    match op
    case Add(name, value) => AddMember(ms, name, value).GetOr(ms)
    case Set(name, value) => SetMember(ms, name, value)
    case Remove(name) => RemoveMember(ms, name).GetOr(ms)
    case Clear => []
  }

  function Run(ms: seq<Member>, ops: seq<Op>): seq<Member>
    decreases |ops|
  {
    if ops == [] then ms else Run(Apply(ms, ops[0]), ops[1..])
  }

  function AsMap(ms: seq<Member>): map<string, Value> {
    map name | name in Names(ms) :: Lookup(ms, name).value
  }

  function ApplyToMap(m: map<string, Value>, op: Op): map<string, Value> {
    match op
    case Add(name, value) => if name in m then m else m[name := value]
    case Set(name, value) => m[name := value]
    case Remove(name) => m - {name}
    case Clear => map[]
  }

  function RunOnMap(m: map<string, Value>, ops: seq<Op>): map<string, Value>
    decreases |ops|
  {
    if ops == [] then m else RunOnMap(ApplyToMap(m, ops[0]), ops[1..])
  }

  /** The members are the entries of m. */
  ghost predicate Entries(ms: seq<Member>, m: map<string, Value>) {
    forall n, v :: Member(n, v) in ms <==> n in m && m[n] == v
  }

  lemma EntriesOfMap(ms: seq<Member>)
    requires DistinctNames(ms)
    ensures Entries(ms, AsMap(ms))
  {
    forall n, v ensures Member(n, v) in ms <==> n in AsMap(ms) && AsMap(ms)[n] == v {
      if Member(n, v) in ms {
        var i :| 0 <= i < |ms| && ms[i] == Member(n, v);
        LookupAt(ms, i);
      }
    }
  }

  lemma MapOfEntries(ms: seq<Member>, m: map<string, Value>)
    requires DistinctNames(ms) && Entries(ms, m)
    ensures AsMap(ms) == m
  {
    EntriesOfMap(ms);
    var m' := AsMap(ms);
    forall n ensures n in m <==> n in m' && m'[n] == m[n] {
      if n in m {
        assert Member(n, m[n]) in ms;
      }
      if n in m' {
        assert Member(n, m'[n]) in ms;
      }
    }
  }

  lemma ApplyRefines(ms: seq<Member>, op: Op)
    requires DistinctNames(ms)
    ensures DistinctNames(Apply(ms, op)) && AsMap(Apply(ms, op)) == ApplyToMap(AsMap(ms), op)
  {
    match op
    case Add(name, value) => AddRefines(ms, name, value);
    case Set(name, value) => SetRefines(ms, name, value);
    case Remove(name) => RemoveRefines(ms, name);
    case Clear =>
  }

  lemma AddRefines(ms: seq<Member>, name: string, value: Value)
    requires DistinctNames(ms)
    ensures var r := AddMember(ms, name, value).GetOr(ms);
            DistinctNames(r) && AsMap(r) == if name in AsMap(ms) then AsMap(ms) else AsMap(ms)[name := value]
  {
    if name !in AsMap(ms) {
      EntriesOfMap(ms);
      forall i | 0 <= i < |ms| ensures ms[i].name != name {
        assert Member(ms[i].name, ms[i].value) in ms;
      }
      MapOfEntries(ms + [Member(name, value)], AsMap(ms)[name := value]);
    }
  }

  lemma SetRefines(ms: seq<Member>, name: string, value: Value)
    requires DistinctNames(ms)
    ensures var r := SetMember(ms, name, value); DistinctNames(r) && AsMap(r) == AsMap(ms)[name := value]
  {
    var at := IndexOf(ms, name);
    LookupIsIndexOf(ms, name);
    if at == |ms| {
      AddRefines(ms, name, value);
    } else {
      EntriesOfMap(ms);
      OverwriteEntries(ms, at, Member(name, value));
      MapOfEntries(ms[at := Member(name, value)], AsMap(ms)[name := value]);
    }
  }

  lemma OverwriteEntries(ms: seq<Member>, at: nat, x: Member)
    requires at < |ms| && DistinctNames(ms) && ms[at].name == x.name
    ensures var r := ms[at := x];
            DistinctNames(r) && forall m :: m in r <==> m == x || (m in ms && m.name != x.name)
  {
    var r := ms[at := x];
    assert forall i | 0 <= i < |ms| :: r[i].name == ms[i].name;
    forall m ensures m in r <==> m == x || (m in ms && m.name != x.name) {
      if m == x {
        assert r[at] == m;
      } else if m in ms && m.name != x.name {
        var i :| 0 <= i < |ms| && ms[i] == m;
        assert r[i] == m;
      }
    }
  }

  lemma RemoveRefines(ms: seq<Member>, name: string)
    requires DistinctNames(ms)
    ensures var r := RemoveMember(ms, name).GetOr(ms); DistinctNames(r) && AsMap(r) == AsMap(ms) - {name}
  {
    var at := IndexOf(ms, name);
    LookupIsIndexOf(ms, name);
    EntriesOfMap(ms);
    if at < |ms| {
      RemoveEntries(ms, at);
      MapOfEntries(RemoveAt(ms, at), AsMap(ms) - {name});
    }
  }

  lemma RemoveEntries(ms: seq<Member>, at: nat)
    requires at < |ms| && DistinctNames(ms)
    ensures var r := RemoveAt(ms, at);
            DistinctNames(r) && forall m :: m in r <==> m in ms && m.name != ms[at].name
  {
    var r, last := RemoveAt(ms, at), |ms| - 1;
    assert forall i | 0 <= i < last :: r[i] == if i == at then ms[last] else ms[i];
    forall m ensures m in r <==> m in ms && m.name != ms[at].name {
      if m in ms && m.name != ms[at].name {
        var i :| 0 <= i < |ms| && ms[i] == m;
        assert r[if i == last then at else i] == m;
      }
    }
  }

  /** Over any run of operations names stay distinct, and the table tracks a finite map. */
  lemma {:induction false} RunRefinesMap(ms: seq<Member>, ops: seq<Op>)
    requires DistinctNames(ms)
    ensures DistinctNames(Run(ms, ops)) && AsMap(Run(ms, ops)) == RunOnMap(AsMap(ms), ops)
    decreases |ops|
  {
    if ops != [] {
      ApplyRefines(ms, ops[0]);
      RunRefinesMap(Apply(ms, ops[0]), ops[1..]);
    }
  }

  /** Removal loses one member and no other, whatever it does to the order. */
  lemma RemoveLosesOne(ms: seq<Member>, i: nat)
    requires i < |ms|
    ensures multiset(RemoveAt(ms, i)) == multiset(ms) - multiset{ms[i]}
  {
    var last := |ms| - 1;
    assert ms == ms[..last] + [ms[last]];
    if i < last {
      var front := ms[..last];
      assert front == front[..i] + [ms[i]] + front[i + 1..];
      assert RemoveAt(ms, i) == front[..i] + [ms[last]] + front[i + 1..];
    }
  }

  /** Where the members stand after a set: in their places, a new one behind all others. */
  lemma SetKeepsPlaces(ms: seq<Member>, name: string, value: Value)
    requires DistinctNames(ms)
    ensures var r := SetMember(ms, name, value);
            (forall k | 0 <= k < |ms| :: r[k] == if ms[k].name == name then Member(name, value) else ms[k]) &&
            if exists k :: 0 <= k < |ms| && ms[k].name == name then |r| == |ms|
            else |r| == |ms| + 1 && r[|ms|] == Member(name, value)
  {
  }

  /** Where they stand after a removal: in their places, but the last one in that of the removed one. */
  lemma RemoveKeepsPlaces(ms: seq<Member>, name: string, k: nat)
    requires DistinctNames(ms) && RemoveMember(ms, name).Some? && k < |ms| - 1
    ensures var r := RemoveMember(ms, name).value;
            |r| == |ms| - 1 && r[k] == if ms[k].name == name then ms[|ms| - 1] else ms[k]
  {
  }
}
