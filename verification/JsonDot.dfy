/** Dotted paths into nested objects: dotget, dotset and dotremove (parson.c). */
module JsonDot {
  import opened Common
  import opened JsonValue
  import opened JsonObject

  /** strchr(name, '.'): the position of the first dot. */
  function FirstDot(name: string): (r: Option<nat>)
    ensures r.Some? ==> r.value < |name| && name[r.value] == '.' && '.' !in name[..r.value]
    ensures r.None? ==> '.' !in name
  {
    if name == "" then None
    else if name[0] == '.' then Some(0)
    else
      match FirstDot(name[1..])
      case None => None
      case Some(d) => assert name[..d + 1] == [name[0]] + name[1..][..d]; Some(d + 1)
  }

  // ---------------------------------------------------------------------------------------------
  // The three operations, on the members of an object

  /** json_object_dotget_value: what is not an object has nothing below it. */
  function DotGet(ms: seq<Member>, name: string): Option<Value>
    decreases |name|
  {
    match FirstDot(name)
    case None => Lookup(ms, name)
    case Some(d) =>
      match Lookup(ms, name[..d])
      case Some(Object(sub)) => DotGet(sub, name[d + 1..])
      case _ => None
  }

  /**
   * json_object_dotset_value: the members afterwards, or None where it fails. Objects on the way are created as needed;
   * any other value on the way makes it fail, and so does a value that already has a parent.
   */
  function DotSet(ms: seq<Member>, name: string, value: Value, attached: bool): Option<seq<Member>>
    decreases |name|
  {
    match FirstDot(name)
    case None => if attached then None else Some(SetMember(ms, name, value))
    case Some(d) =>
      match Lookup(ms, name[..d])
      case Some(Object(sub)) =>
        (match DotSet(sub, name[d + 1..], value, attached)
         case None => None
         case Some(sub') => Some(SetMember(ms, name[..d], Object(sub'))))
      case Some(_) => None
      case None =>
        match DotSet([], name[d + 1..], value, attached)
        case None => None
        case Some(sub') => AddMember(ms, name[..d], Object(sub'))
  }

  /** json_object_dotremove_internal. */
  function DotRemove(ms: seq<Member>, name: string): Option<seq<Member>>
    decreases |name|
  {
    match FirstDot(name)
    case None => RemoveMember(ms, name)
    case Some(d) =>
      match Lookup(ms, name[..d])
      case Some(Object(sub)) =>
        (match DotRemove(sub, name[d + 1..])
         case None => None
         case Some(sub') => Some(SetMember(ms, name[..d], Object(sub'))))
      case _ => None
  }

  // ---------------------------------------------------------------------------------------------
  // The calls as the code makes them: a status, and the members as they stand afterwards

  /** What a call returns and leaves behind, in the object it was given, whether it succeeds or not. */
  datatype Outcome = Outcome(ok: bool, members: seq<Member>)

  /** json_object_set_value. */
  function SetCall(ms: seq<Member>, name: string, value: Value, attached: bool): Outcome {
    if attached then Outcome(false, ms) else Outcome(true, SetMember(ms, name, value))
  }

  /**
   * json_object_dotset_value, return by return. The object on the way is worked on in place, so whatever the inner call
   * leaves in it stays; an object made on the way is filled first and added afterwards.
   */
  function DotSetCall(ms: seq<Member>, name: string, value: Value, attached: bool): Outcome
    decreases |name|
  {
    match FirstDot(name)
    case None => SetCall(ms, name, value, attached)
    case Some(d) =>
      match Lookup(ms, name[..d])
      case Some(Object(sub)) =>
        var inner := DotSetCall(sub, name[d + 1..], value, attached);
        Outcome(inner.ok, SetMember(ms, name[..d], Object(inner.members)))
      case Some(_) => Outcome(false, ms)
      case None =>
        var inner := DotSetCall([], name[d + 1..], value, attached);
        if !inner.ok then Outcome(false, ms)
        else
          match AddMember(ms, name[..d], Object(inner.members))
          case Some(added) => Outcome(true, added)
          case None => Outcome(false, ms)
  }

  /** json_object_dotremove_internal, likewise in place. */
  function DotRemoveCall(ms: seq<Member>, name: string): Outcome
    decreases |name|
  {
    match FirstDot(name)
    case None =>
      (match RemoveMember(ms, name)
       case Some(left) => Outcome(true, left)
       case None => Outcome(false, ms))
    case Some(d) =>
      match Lookup(ms, name[..d])
      case Some(Object(sub)) =>
        var inner := DotRemoveCall(sub, name[d + 1..]);
        Outcome(inner.ok, SetMember(ms, name[..d], Object(inner.members)))
      case _ => Outcome(false, ms)
  }

  /** Setting a member to the value it has changes nothing. */
  lemma SetToItself(ms: seq<Member>, name: string, value: Value)
    requires Lookup(ms, name) == Some(value)
    ensures SetMember(ms, name, value) == ms
  {
    LookupIsIndexOf(ms, name);
    assert ms[IndexOf(ms, name)] == Member(name, value);
  }

  /** One level of dotset where the object on the way is there. */
  lemma DotSetIntoObject(ms: seq<Member>, name: string, value: Value, attached: bool, d: nat, sub: seq<Member>)
    requires FirstDot(name) == Some(d) && Lookup(ms, name[..d]) == Some(Object(sub))
    requires var r, spec := DotSetCall(sub, name[d + 1..], value, attached), DotSet(sub, name[d + 1..], value, attached);
             r.ok == spec.Some? && r.members == spec.GetOr(sub)
    ensures var r, spec := DotSetCall(ms, name, value, attached), DotSet(ms, name, value, attached);
            r.ok == spec.Some? && r.members == spec.GetOr(ms)
  {
    SetToItself(ms, name[..d], Object(sub));
  }

  /** One level of dotset where the object on the way is made. */
  lemma DotSetIntoNew(ms: seq<Member>, name: string, value: Value, attached: bool, d: nat)
    requires FirstDot(name) == Some(d) && Lookup(ms, name[..d]).None?
    requires var r, spec := DotSetCall([], name[d + 1..], value, attached), DotSet([], name[d + 1..], value, attached);
             r.ok == spec.Some? && r.members == spec.GetOr([])
    ensures var r, spec := DotSetCall(ms, name, value, attached), DotSet(ms, name, value, attached);
            r.ok == spec.Some? && r.members == spec.GetOr(ms)
  {
  }

  /** A dotset that fails leaves the whole tree as it was; one that succeeds leaves what DotSet says. */
  lemma {:induction false} DotSetFailsCleanly(ms: seq<Member>, name: string, value: Value, attached: bool)
    ensures var r, spec := DotSetCall(ms, name, value, attached), DotSet(ms, name, value, attached);
            r.ok == spec.Some? && r.members == spec.GetOr(ms)
    decreases |name|
  {
    match FirstDot(name)
    case None =>
    case Some(d) =>
      match Lookup(ms, name[..d])
      case Some(Object(sub)) =>
        DotSetFailsCleanly(sub, name[d + 1..], value, attached);
        DotSetIntoObject(ms, name, value, attached, d, sub);
      case Some(_) =>
      case None =>
        DotSetFailsCleanly([], name[d + 1..], value, attached);
        DotSetIntoNew(ms, name, value, attached, d);
  }

  lemma DotRemoveInObject(ms: seq<Member>, name: string, d: nat, sub: seq<Member>)
    requires FirstDot(name) == Some(d) && Lookup(ms, name[..d]) == Some(Object(sub))
    requires var r, spec := DotRemoveCall(sub, name[d + 1..]), DotRemove(sub, name[d + 1..]);
             r.ok == spec.Some? && r.members == spec.GetOr(sub)
    ensures var r, spec := DotRemoveCall(ms, name), DotRemove(ms, name);
            r.ok == spec.Some? && r.members == spec.GetOr(ms)
  {
    SetToItself(ms, name[..d], Object(sub));
  }

  /** So does a dotremove. */
  lemma {:induction false} DotRemoveFailsCleanly(ms: seq<Member>, name: string)
    ensures var r, spec := DotRemoveCall(ms, name), DotRemove(ms, name);
            r.ok == spec.Some? && r.members == spec.GetOr(ms)
    decreases |name|
  {
    match FirstDot(name)
    case None =>
    case Some(d) =>
      match Lookup(ms, name[..d])
      case Some(Object(sub)) =>
        DotRemoveFailsCleanly(sub, name[d + 1..]);
        DotRemoveInObject(ms, name, d, sub);
      case _ =>
  }

  lemma FailureChangesNothing(ms: seq<Member>, name: string, value: Value, attached: bool)
    ensures !DotSetCall(ms, name, value, attached).ok ==> DotSetCall(ms, name, value, attached).members == ms
    ensures !DotRemoveCall(ms, name).ok ==> DotRemoveCall(ms, name).members == ms
  {
    DotSetFailsCleanly(ms, name, value, attached);
    DotRemoveFailsCleanly(ms, name);
  }

  // ---------------------------------------------------------------------------------------------
  // Paths

  /** The components of a dotted name. */
  function Components(name: string): (path: seq<string>)
    ensures path != []
    decreases |name|
  {
    match FirstDot(name)
    case None => [name]
    case Some(d) => [name[..d]] + Components(name[d + 1..])
  }

  /** The value at the end of a path: the reference against which the three operations are stated. */
  function ValueAt(v: Value, path: seq<string>): Option<Value>
    decreases |path|
  {
    if path == [] then Some(v)
    else if v.Object? && Lookup(v.members, path[0]).Some? then ValueAt(Lookup(v.members, path[0]).value, path[1..])
    else None
  }

  lemma {:induction false} DotGetIsValueAt(ms: seq<Member>, name: string)
    ensures DotGet(ms, name) == ValueAt(Object(ms), Components(name))
    decreases |name|
  {
    match FirstDot(name)
    case None =>
      var found := Lookup(ms, name);
      if found.Some? {
        assert ValueAt(found.value, Components(name)[1..]) == found;
      }
    case Some(d) =>
      var path := Components(name);
      assert path[1..] == Components(name[d + 1..]);
      var found := Lookup(ms, name[..d]);
      if found.Some? && found.value.Object? {
        DotGetIsValueAt(found.value.members, name[d + 1..]);
      }
  }

  // ---------------------------------------------------------------------------------------------
  // Lookup after an update

  lemma {:induction false} LookupAfterSet(ms: seq<Member>, name: string, value: Value, other: string)
    ensures Lookup(SetMember(ms, name, value), other) == if other == name then Some(value) else Lookup(ms, other)
  {
    var r := SetMember(ms, name, value);
    if ms == [] {
      assert r == [Member(name, value)];
    } else if ms[0].name == name {
      assert r == [Member(name, value)] + ms[1..];
      assert r[1..] == ms[1..];
    } else {
      assert r == [ms[0]] + SetMember(ms[1..], name, value);
      assert r[1..] == SetMember(ms[1..], name, value);
      LookupAfterSet(ms[1..], name, value, other);
    }
  }

  /** Adding under a free name is setting it. */
  lemma AddIsSet(ms: seq<Member>, name: string, value: Value)
    requires Lookup(ms, name).None?
    ensures AddMember(ms, name, value) == Some(SetMember(ms, name, value))
  {
    LookupIsIndexOf(ms, name);
  }

  lemma LookupAfterRemove(ms: seq<Member>, name: string, other: string)
    requires DistinctNames(ms) && RemoveMember(ms, name).Some?
    ensures Lookup(RemoveMember(ms, name).value, other) == if other == name then None else Lookup(ms, other)
    ensures DistinctNames(RemoveMember(ms, name).value)
  {
    var r := RemoveMember(ms, name).value;
    RemoveRefines(ms, name);
    assert other in AsMap(r) <==> other in AsMap(ms) && other != name;
    if other in AsMap(r) {
      assert AsMap(r)[other] == AsMap(ms)[other];
    }
  }

  // ---------------------------------------------------------------------------------------------
  // What dotset does

  /** One of the two paths leads through the end of the other. */
  predicate Comparable(p: seq<string>, q: seq<string>) {
    p <= q || q <= p
  }

  /** A value that is no object stands on the way to the end of the path. */
  predicate Blocked(v: Value, path: seq<string>)
    decreases |path|
  {
    path != [] &&
    (!v.Object? || (Lookup(v.members, path[0]).Some? && Blocked(Lookup(v.members, path[0]).value, path[1..])))
  }

  /** The blocking value can be found with dotget, at some proper prefix of the path. */
  lemma {:induction false} BlockedMeans(v: Value, path: seq<string>)
    ensures Blocked(v, path) <==>
            exists k | 0 <= k < |path| :: ValueAt(v, path[..k]).Some? && !ValueAt(v, path[..k]).value.Object?
    decreases |path|
  {
    if path != [] {
      assert path[..0] == [];
      assert ValueAt(v, path[..0]) == Some(v);
      if v.Object? && Lookup(v.members, path[0]).Some? {
        var w := Lookup(v.members, path[0]).value;
        BlockedMeans(w, path[1..]);
        forall k | 0 < k <= |path| ensures ValueAt(v, path[..k]) == ValueAt(w, path[1..][..k - 1]) {
          assert path[..k][1..] == path[1..][..k - 1];
        }
        if Blocked(w, path[1..]) {
          var k :| 0 <= k < |path[1..]| && ValueAt(w, path[1..][..k]).Some? && !ValueAt(w, path[1..][..k]).value.Object?;
          assert ValueAt(v, path[..k + 1]).Some? && !ValueAt(v, path[..k + 1]).value.Object?;
        }
        if exists k | 0 <= k < |path| :: ValueAt(v, path[..k]).Some? && !ValueAt(v, path[..k]).value.Object? {
          var k :| 0 <= k < |path| && ValueAt(v, path[..k]).Some? && !ValueAt(v, path[..k]).value.Object?;
          assert ValueAt(w, path[1..][..k - 1]).Some? && !ValueAt(w, path[1..][..k - 1]).value.Object?;
        }
      } else {
        forall k | 0 < k < |path| ensures ValueAt(v, path[..k]).None? {
          assert path[..k][0] == path[0];
        }
      }
    }
  }

  /** dotset succeeds exactly when the value is free and no other value than an object stands on the way. */
  lemma {:induction false} DotSetSucceeds(ms: seq<Member>, name: string, value: Value, attached: bool)
    ensures DotSet(ms, name, value, attached).Some? <==> !attached && !Blocked(Object(ms), Components(name))
    decreases |name|
  {
    var path := Components(name);
    match FirstDot(name)
    case None => assert path[1..] == [];
    case Some(d) =>
      assert path[1..] == Components(name[d + 1..]);
      var found := Lookup(ms, name[..d]);
      if found.Some? && found.value.Object? {
        DotSetSucceeds(found.value.members, name[d + 1..], value, attached);
      } else if found.None? {
        DotSetSucceeds([], name[d + 1..], value, attached);
        NothingBlocksInEmpty(path[1..]);
      }
  }

  lemma NothingBlocksInEmpty(path: seq<string>)
    ensures !Blocked(Object([]), path)
  {
  }

  /** One step of dotset: the first component now leads to an object, in which the rest was set. */
  lemma DotSetStep(ms: seq<Member>, name: string, value: Value, d: nat) returns (below: seq<Member>, sub: seq<Member>)
    requires FirstDot(name) == Some(d) && DotSet(ms, name, value, false).Some?
    ensures DotSet(below, name[d + 1..], value, false) == Some(sub)
    ensures DotSet(ms, name, value, false) == Some(SetMember(ms, name[..d], Object(sub)))
    ensures match Lookup(ms, name[..d])
            case None => below == []
            case Some(w) => w == Object(below)
  {
    match Lookup(ms, name[..d])
    case Some(w) =>
      below := w.members;
      sub := DotSet(below, name[d + 1..], value, false).value;
    case None =>
      below := [];
      sub := DotSet(below, name[d + 1..], value, false).value;
      AddIsSet(ms, name[..d], Object(sub));
  }

  lemma PrefixTails(head: string, tail: seq<string>, path: seq<string>)
    requires path != [] && path[0] == head
    ensures [head] + tail <= path <==> tail <= path[1..]
  {
    assert path == [head] + path[1..];
  }

  /** A successful dotset makes a path that starts with the name lead on from the value. */
  lemma {:induction false} DotSetLeadsOn(ms: seq<Member>, name: string, value: Value, path: seq<string>, k: nat)
    requires DotSet(ms, name, value, false).Some? && Components(name) <= path && k == |Components(name)|
    ensures ValueAt(Object(DotSet(ms, name, value, false).value), path) == ValueAt(value, path[k..])
    decreases |name|
  {
    match FirstDot(name)
    case None => LookupAfterSet(ms, name, value, name);
    case Some(d) =>
      var below, sub := DotSetStep(ms, name, value, d);
      LookupAfterSet(ms, name[..d], Object(sub), name[..d]);
      PrefixTails(name[..d], Components(name[d + 1..]), path);
      DotSetLeadsOn(below, name[d + 1..], value, path[1..], k - 1);
      assert path[1..][k - 1..] == path[k..];
  }

  /** After a successful dotset what lies below the name is the value's own. */
  lemma DotSetThenBelow(ms: seq<Member>, name: string, value: Value, rest: seq<string>)
    requires DotSet(ms, name, value, false).Some?
    ensures ValueAt(Object(DotSet(ms, name, value, false).value), Components(name) + rest) == ValueAt(value, rest)
  {
    var path, k := Components(name) + rest, |Components(name)|;
    assert path[k..] == rest;
    DotSetLeadsOn(ms, name, value, path, k);
  }

  lemma DotSetThenGet(ms: seq<Member>, name: string, value: Value)
    requires DotSet(ms, name, value, false).Some?
    ensures DotGet(DotSet(ms, name, value, false).value, name) == Some(value)
  {
    DotSetThenBelow(ms, name, value, []);
    DotGetIsValueAt(DotSet(ms, name, value, false).value, name);
    assert Components(name) + [] == Components(name);
  }

  /** What no path leads to has no path below it. */
  lemma ValueAtEmptyObject(path: seq<string>)
    requires path != []
    ensures ValueAt(Object([]), path).None?
  {
  }

  /** A dotset leaves every path alone that neither leads to its own end nor through it. */
  lemma {:induction false} DotSetKeepsOthers(ms: seq<Member>, name: string, value: Value, path: seq<string>)
    requires DotSet(ms, name, value, false).Some? && !Comparable(Components(name), path)
    ensures ValueAt(Object(DotSet(ms, name, value, false).value), path) == ValueAt(Object(ms), path)
    decreases |name|
  {
    assert path != [];
    match FirstDot(name)
    case None =>
      assert path[0] == name ==> Components(name) <= path;
      LookupAfterSet(ms, name, value, path[0]);
    case Some(d) =>
      var below, sub := DotSetStep(ms, name, value, d);
      LookupAfterSet(ms, name[..d], Object(sub), path[0]);
      if path[0] == name[..d] {
        IncomparableTails(name[..d], Components(name[d + 1..]), path);
        DotSetKeepsOthers(below, name[d + 1..], value, path[1..]);
        if Lookup(ms, name[..d]).None? {
          ValueAtEmptyObject(path[1..]);
        }
      }
  }

  lemma IncomparableTails(head: string, tail: seq<string>, path: seq<string>)
    requires path != [] && path[0] == head && !Comparable([head] + tail, path)
    ensures path[1..] != [] && !Comparable(tail, path[1..])
  {
    PrefixTails(head, tail, path);
    assert path[1..] <= tail ==> path <= [head] + tail;
  }

  /** On the way to the value stand objects only. */
  lemma DotSetMakesObjects(ms: seq<Member>, name: string, value: Value, k: nat)
    requires DotSet(ms, name, value, false).Some? && k < |Components(name)|
    ensures var w := ValueAt(Object(DotSet(ms, name, value, false).value), Components(name)[..k]);
            w.Some? && w.value.Object?
  {
    var root, path := Object(DotSet(ms, name, value, false).value), Components(name);
    DotSetThenBelow(ms, name, value, []);
    assert path + [] == path;
    PrefixIsObject(root, path, k);
  }

  lemma {:induction false} PrefixIsObject(v: Value, path: seq<string>, k: nat)
    requires k < |path| && ValueAt(v, path).Some?
    ensures ValueAt(v, path[..k]).Some? && ValueAt(v, path[..k]).value.Object?
  {
    if k > 0 {
      assert path[..k][1..] == path[1..][..k - 1];
      PrefixIsObject(Lookup(v.members, path[0]).value, path[1..], k - 1);
    }
  }

  lemma SetKeepsUnambiguous(ms: seq<Member>, name: string, value: Value)
    requires Unambiguous(Object(ms)) && Unambiguous(value)
    ensures Unambiguous(Object(SetMember(ms, name, value)))
  {
    SetRefines(ms, name, value);
  }

  /** No object on the way gets a name twice. */
  lemma {:induction false} DotSetKeepsUnambiguous(ms: seq<Member>, name: string, value: Value)
    requires DotSet(ms, name, value, false).Some? && Unambiguous(Object(ms)) && Unambiguous(value)
    ensures Unambiguous(Object(DotSet(ms, name, value, false).value))
    decreases |name|
  {
    match FirstDot(name)
    case None => SetKeepsUnambiguous(ms, name, value);
    case Some(d) =>
      var below, sub := DotSetStep(ms, name, value, d);
      if Lookup(ms, name[..d]).Some? {
        assert Member(name[..d], Object(below)) in ms;
      }
      DotSetKeepsUnambiguous(below, name[d + 1..], value);
      SetKeepsUnambiguous(ms, name[..d], Object(sub));
  }

  // ---------------------------------------------------------------------------------------------
  // What dotremove does

  lemma DotRemoveStep(ms: seq<Member>, name: string, d: nat) returns (below: seq<Member>, sub: seq<Member>)
    requires FirstDot(name) == Some(d) && DotRemove(ms, name).Some? && Unambiguous(Object(ms))
    ensures Lookup(ms, name[..d]) == Some(Object(below)) && DotRemove(below, name[d + 1..]) == Some(sub)
    ensures DotRemove(ms, name) == Some(SetMember(ms, name[..d], Object(sub)))
    ensures Unambiguous(Object(below))
  {
    below := Lookup(ms, name[..d]).value.members;
    sub := DotRemove(below, name[d + 1..]).value;
    assert Member(name[..d], Object(below)) in ms;
  }

  lemma RemoveFinds(ms: seq<Member>, name: string)
    ensures RemoveMember(ms, name).Some? <==> Lookup(ms, name).Some?
  {
    LookupIsIndexOf(ms, name);
  }

  /** Removing succeeds exactly where dotget finds something. */
  lemma {:induction false} DotRemoveSucceeds(ms: seq<Member>, name: string)
    ensures DotRemove(ms, name).Some? <==> DotGet(ms, name).Some?
    decreases |name|
  {
    match FirstDot(name)
    case None => RemoveFinds(ms, name);
    case Some(d) =>
      match Lookup(ms, name[..d]) {
        case Some(Object(sub)) => DotRemoveSucceeds(sub, name[d + 1..]);
        case _ =>
      }
  }

  /** After a removal nothing is left at the path or below it, and every path that does not touch it is unchanged. */
  lemma {:induction false} DotRemoveRemoves(ms: seq<Member>, name: string, path: seq<string>)
    requires DotRemove(ms, name).Some? && Unambiguous(Object(ms))
    ensures Components(name) <= path ==> ValueAt(Object(DotRemove(ms, name).value), path).None?
    ensures !Comparable(Components(name), path) ==>
              ValueAt(Object(DotRemove(ms, name).value), path) == ValueAt(Object(ms), path)
    decreases |name|
  {
    if path != [] {
      match FirstDot(name)
      case None =>
        LookupAfterRemove(ms, name, path[0]);
        assert Components(name) <= path <==> path[0] == name;
      case Some(d) =>
        var below, sub := DotRemoveStep(ms, name, d);
        var tail := Components(name[d + 1..]);
        LookupAfterSet(ms, name[..d], Object(sub), path[0]);
        if path[0] == name[..d] {
          DotRemoveRemoves(below, name[d + 1..], path[1..]);
          PrefixTails(name[..d], tail, path);
          if !Comparable(Components(name), path) {
            IncomparableTails(name[..d], tail, path);
          }
        }
    }
  }
}
