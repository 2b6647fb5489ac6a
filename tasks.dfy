/** The task data model: the technical-id generator, the task record, the
    registry of every constructed task by id, the parent/child link
    operations and the record form used for saving and loading. */
module Tasks {
  import opened Base

  /** The class-level id counter. `counter` is the value the next call of
      `NextNum` hands out. */
  class TechnicalIdGen {
    var counter: int

    /** The counter starts at 0. */
    constructor ()
      ensures counter == 0
    {
      counter := 0;
    }

    /** Restart the counter at `num`, lower than before or not. */
    method ResetTo(num: int)
      modifies this
      ensures counter == num
    {
      counter := num;
    }

    /** Hand out the current value and advance by one. */
    method NextNum() returns (id: int)
      modifies this
      ensures id == old(counter)
      ensures counter == old(counter) + 1
    {
      id := counter;
      counter := counter + 1;
    }

    /** Take one value off the counter, then restart it at the larger of
        that value and `num`: the counter only ever moves forward. */
    method SetMinimum(num: int)
      modifies this
      ensures counter == Max(old(counter), num)
      ensures counter >= old(counter) && counter >= num
    {
      var current := NextNum();
      ResetTo(Max(current, num));
    }
  }

  /** A task. `children` and `parent` hold technical ids. */
  datatype Task = Task(name: string, children: seq<int>, parent: Option<int>, technicalId: int)

  /** The failures of linking and unlinking: the two link guards, and the
      error `list.remove` raises when the id is not among the children. */
  datatype LinkError = OnlyOneParent | NoChildOfItself | NotAChild

  /** Every entry of the registry is filed under its own technical id. */
  ghost predicate Keyed(m: map<int, Task>)
  {
    forall id | id in m :: m[id].technicalId == id
  }

  /** Every child of a task names that task as its parent. */
  ghost predicate ChildrenPointBack(m: map<int, Task>)
  {
    forall p, c | p in m && c in m[p].children :: c in m && m[c].parent == Some(p)
  }

  /** Every parent of a task lists that task among its children. */
  ghost predicate ParentsPointBack(m: map<int, Task>)
  {
    forall c | c in m && m[c].parent.Some? :: m[c].parent.value in m && c in m[m[c].parent.value].children
  }

  /** No children list names an id twice. */
  ghost predicate ChildrenDistinct(m: map<int, Task>)
  {
    forall p | p in m :: NoDuplicates(m[p].children)
  }

  /** Parent and children agree in both directions, and no children list
      names an id twice. */
  ghost predicate Consistent(m: map<int, Task>)
  {
    ChildrenPointBack(m) && ParentsPointBack(m) && ChildrenDistinct(m)
  }

  /** The registry after `task.children_of(other)`, which makes `task` a
      child of `other`. The parent guard is tested before the self guard;
      on either failure nothing changes. */
  function Linked(m: map<int, Task>, task: int, other: int): (r: Result<map<int, Task>, LinkError>)
    requires task in m && other in m
    ensures m[task].parent.Some? ==> r == Err(OnlyOneParent)
    ensures m[task].parent.None? && task == other ==> r == Err(NoChildOfItself)
    ensures r.Ok? <==> m[task].parent.None? && task != other
    ensures r.Ok? ==>
      && r.value.Keys == m.Keys
      && r.value[task] == m[task].(parent := Some(m[other].technicalId))
      && r.value[other] == m[other].(children := m[other].children + [m[task].technicalId])
      && (forall id | id in m && id != task && id != other :: r.value[id] == m[id])
  {
    if m[task].parent.Some? then Err(OnlyOneParent)
    else if task == other then Err(NoChildOfItself)
    else
      var child := m[task].(parent := Some(m[other].technicalId));
      var parent := m[other].(children := m[other].children + [m[task].technicalId]);
      Ok(m[task := child][other := parent])
  }

  /** `list.index`: the position of the first occurrence of `x`. */
  function IndexOf(s: seq<int>, x: int): (i: nat)
    requires x in s
    ensures i < |s| && s[i] == x && x !in s[..i]
  {
    if s[0] == x then 0 else 1 + IndexOf(s[1..], x)
  }

  /** `list.remove`: drop the first occurrence of `x`. */
  function RemoveFirst(s: seq<int>, x: int): (r: seq<int>)
    requires x in s
    ensures |r| == |s| - 1
    ensures multiset(r) == multiset(s) - multiset{x}
  {
    var i := IndexOf(s, x);
    assert s == s[..i] + [x] + s[i + 1..];
    s[..i] + s[i + 1..]
  }

  /** The registry after `task.remove_child(other)`: the first occurrence of
      `other`'s id leaves `task.children`, then `other.parent` is cleared.
      When the id is absent the removal fails before anything changes. */
  function Unlinked(m: map<int, Task>, task: int, other: int): (r: Result<map<int, Task>, LinkError>)
    requires task in m && other in m
    ensures r.Ok? <==> m[other].technicalId in m[task].children
    ensures r.Err? ==> r.error == NotAChild
    ensures r.Ok? ==>
      && r.value.Keys == m.Keys
      && r.value[task].children == RemoveFirst(m[task].children, m[other].technicalId)
      && r.value[other].parent == None
      && (forall id | id in m && id != task && id != other :: r.value[id] == m[id])
    ensures r.Ok? && task != other ==>
      && r.value[task] == m[task].(children := RemoveFirst(m[task].children, m[other].technicalId))
      && r.value[other] == m[other].(parent := None)
    ensures r.Ok? && task == other ==>
      r.value[task] == m[task].(children := RemoveFirst(m[task].children, m[task].technicalId), parent := None)
  {
    if m[other].technicalId !in m[task].children then Err(NotAChild)
    else
      var m1 := m[task := m[task].(children := RemoveFirst(m[task].children, m[other].technicalId))];
      Ok(m1[other := m1[other].(parent := None)])
  }

  /** A successful link keeps the registry keyed and consistent. */
  lemma LinkedKeepsConsistent(m: map<int, Task>, task: int, other: int)
    requires task in m && other in m && Keyed(m) && Consistent(m)
    ensures Linked(m, task, other).Ok? ==>
      Keyed(Linked(m, task, other).value) && Consistent(Linked(m, task, other).value)
  {
    if Linked(m, task, other).Ok? {
      var m' := Linked(m, task, other).value;
      // `task` had no parent, so no children list named it
      assert forall p | p in m :: task !in m[p].children;
      LinkedChildrenPointBack(m, m', task, other);
      LinkedParentsPointBack(m, m', task, other);
      LinkedChildrenDistinct(m, m', task, other);
    }
  }

  lemma LinkedChildrenPointBack(m: map<int, Task>, m': map<int, Task>, task: int, other: int)
    requires task in m && other in m && task != other && Keyed(m) && ChildrenPointBack(m)
    requires forall p | p in m :: task !in m[p].children
    requires m'.Keys == m.Keys
    requires m'[task] == m[task].(parent := Some(other))
    requires m'[other] == m[other].(children := m[other].children + [task])
    requires forall id | id in m && id != task && id != other :: m'[id] == m[id]
    ensures ChildrenPointBack(m')
  {
    forall p, c | p in m' && c in m'[p].children
      ensures c in m' && m'[c].parent == Some(p)
    {
      if p == other && c == task {
      } else {
        assert c in m[p].children;
      }
    }
  }

  lemma LinkedParentsPointBack(m: map<int, Task>, m': map<int, Task>, task: int, other: int)
    requires task in m && other in m && task != other && ParentsPointBack(m)
    requires m'.Keys == m.Keys
    requires m'[task] == m[task].(parent := Some(other))
    requires m'[other] == m[other].(children := m[other].children + [task])
    requires forall id | id in m && id != task && id != other :: m'[id] == m[id]
    ensures ParentsPointBack(m')
  {
  }

  lemma LinkedChildrenDistinct(m: map<int, Task>, m': map<int, Task>, task: int, other: int)
    requires task in m && other in m && task != other && ChildrenDistinct(m)
    requires task !in m[other].children
    requires m'.Keys == m.Keys
    requires m'[task] == m[task].(parent := Some(other))
    requires m'[other] == m[other].(children := m[other].children + [task])
    requires forall id | id in m && id != task && id != other :: m'[id] == m[id]
    ensures ChildrenDistinct(m')
  {
    assert NoDuplicates(m[other].children);
  }

  /** No value occurs twice. */
  ghost predicate NoDuplicates(s: seq<int>)
  {
    forall i, j | 0 <= i < j < |s| :: s[i] != s[j]
  }

  /** Removing an element from a list without duplicates removes it
      entirely, keeps the other elements, and adds no duplicate. */
  lemma RemoveFirstNoDuplicates(s: seq<int>, x: int)
    requires x in s && NoDuplicates(s)
    ensures x !in RemoveFirst(s, x)
    ensures forall y | y in s :: y in RemoveFirst(s, x) <==> y != x
    ensures NoDuplicates(RemoveFirst(s, x))
  {
    var i := IndexOf(s, x);
    var r := RemoveFirst(s, x);
    assert r == s[..i] + s[i + 1..];
    forall j | 0 <= j < |r| ensures r[j] == s[if j < i then j else j + 1] { }
    forall y | y in s && y != x ensures y in r {
      var k :| 0 <= k < |s| && s[k] == y;
      assert r[if k < i then k else k - 1] == y;
    }
  }

  /** A successful unlink keeps the registry keyed and consistent. */
  lemma UnlinkedKeepsConsistent(m: map<int, Task>, task: int, other: int)
    requires task in m && other in m && Keyed(m) && Consistent(m)
    ensures Unlinked(m, task, other).Ok? ==>
      Keyed(Unlinked(m, task, other).value) && Consistent(Unlinked(m, task, other).value)
  {
    if Unlinked(m, task, other).Ok? {
      var m' := Unlinked(m, task, other).value;
      assert m[other].parent == Some(task);
      assert NoDuplicates(m[task].children);
      RemoveFirstNoDuplicates(m[task].children, other);
      UnlinkedChildrenPointBack(m, m', task, other);
      UnlinkedParentsPointBack(m, m', task, other);
      UnlinkedChildrenDistinct(m, m', task, other);
    }
  }

  lemma UnlinkedChildrenPointBack(m: map<int, Task>, m': map<int, Task>, task: int, other: int)
    requires task in m && other in m && ChildrenPointBack(m)
    requires m'.Keys == m.Keys
    requires forall c | c in m'[task].children :: c in m[task].children && c != other
    requires m'[other].parent == None
    requires task != other ==> m'[task].parent == m[task].parent && m'[other].children == m[other].children
    requires forall id | id in m && id != task && id != other :: m'[id] == m[id]
    requires m[other].parent == Some(task)
    ensures ChildrenPointBack(m')
  {
    forall p, c | p in m' && c in m'[p].children
      ensures c in m' && m'[c].parent == Some(p)
    {
      assert c in m[p].children;
    }
  }

  lemma UnlinkedParentsPointBack(m: map<int, Task>, m': map<int, Task>, task: int, other: int)
    requires task in m && other in m && ParentsPointBack(m)
    requires m'.Keys == m.Keys
    requires forall c | c in m[task].children && c != other :: c in m'[task].children
    requires m'[other].parent == None
    requires task != other ==> m'[task].parent == m[task].parent && m'[other].children == m[other].children
    requires forall id | id in m && id != task && id != other :: m'[id] == m[id]
    ensures ParentsPointBack(m')
  {
    forall c | c in m' && m'[c].parent.Some?
      ensures m'[c].parent.value in m' && c in m'[m'[c].parent.value].children
    {
      assert c != other && m'[c].parent == m[c].parent;
      var q := m[c].parent.value;
      assert c in m[q].children;
      if q != task && q != other {
        assert m'[q] == m[q];
      }
    }
  }

  lemma UnlinkedChildrenDistinct(m: map<int, Task>, m': map<int, Task>, task: int, other: int)
    requires task in m && other in m && ChildrenDistinct(m)
    requires m'.Keys == m.Keys
    requires NoDuplicates(m'[task].children)
    requires task != other ==> m'[other].children == m[other].children
    requires forall id | id in m && id != task && id != other :: m'[id] == m[id]
    ensures ChildrenDistinct(m')
  {
    forall p | p in m' ensures NoDuplicates(m'[p].children) {
      if p != task {
        assert NoDuplicates(m[p].children);
      }
    }
  }

  /** Unlinking undoes linking: on a consistent registry, linking a
      parentless task under another and then removing it from that parent's
      children gives back the registry it started from. */
  lemma {:induction false} UnlinkUndoesLink(m: map<int, Task>, task: int, other: int)
    requires task in m && other in m && Keyed(m) && Consistent(m)
    requires m[task].parent.None? && task != other
    ensures Linked(m, task, other).Ok?
    ensures Unlinked(Linked(m, task, other).value, other, task) == Ok(m)
  {
    var m' := Linked(m, task, other).value;
    var kids := m[other].children;
    assert task !in kids;
    assert m'[other].children == kids + [task];
    assert IndexOf(kids + [task], task) == |kids|;
    assert RemoveFirst(kids + [task], task) == kids;
    var back := Unlinked(m', other, task).value;
    assert back[other] == m[other];
    assert back[task] == m[task];
    assert back == m;
  }

  /** The two guards do not rule out cycles: a parentless task linked
      under its own child passes both, and afterwards each of the two names
      the other as its parent. */
  lemma LinkUnderOwnChild(m: map<int, Task>, task: int, child: int)
    requires task in m && child in m && Keyed(m)
    requires m[task].parent.None? && m[child].parent == Some(task)
    ensures Linked(m, task, child).Ok?
    ensures Linked(m, task, child).value[task].parent == Some(child)
    ensures Linked(m, task, child).value[child].parent == Some(task)
  {
  }

  /** The plain values a saved record holds. */
  datatype Value = Str(s: string) | Int(i: int) | IntList(xs: seq<int>) | Null

  /** `KeyError` for a missing `technical_id`; `TypeError` for a field of the
      wrong kind, an unknown field, or a missing `name`. */
  datatype DecodeError = KeyError(key: string) | TypeError

  const NameKey: string := "name"
  const ChildrenKey: string := "children"
  const ParentKey: string := "parent"
  const TechnicalIdKey: string := "technical_id"

  /** The field names of a task, which are also the only keywords its
      constructor accepts. */
  const RecordKeys: set<string> := {NameKey, ChildrenKey, ParentKey, TechnicalIdKey}

  /** `serialize`: the task's fields by name. */
  function Serialize(t: Task): (d: map<string, Value>)
    ensures d.Keys == RecordKeys
    ensures d[TechnicalIdKey] == Int(t.technicalId)
  {
    map[NameKey := Str(t.name),
        ChildrenKey := IntList(t.children),
        ParentKey := (if t.parent.Some? then Int(t.parent.value) else Null),
        TechnicalIdKey := Int(t.technicalId)]
  }

  /** The first step of `deserialize`: read `technical_id` (a missing key
      fails here, before anything else happens). */
  function RecordId(d: map<string, Value>): (r: Result<int, DecodeError>)
    ensures TechnicalIdKey !in d ==> r == Err(KeyError(TechnicalIdKey))
    ensures TechnicalIdKey in d && !d[TechnicalIdKey].Int? ==> r == Err(TypeError)
    ensures r.Ok? <==> TechnicalIdKey in d && d[TechnicalIdKey].Int?
    ensures r.Ok? ==> r.value == d[TechnicalIdKey].i
  {
    if TechnicalIdKey !in d then Err(KeyError(TechnicalIdKey))
    else if d[TechnicalIdKey].Int? then Ok(d[TechnicalIdKey].i)
    else Err(TypeError)
  }

  /** The task `cls(**dct)` builds: `name` is required, `children` and
      `parent` fall back to `[]` and `None`, and no other field is accepted. */
  function FromRecord(d: map<string, Value>): (r: Result<Task, DecodeError>)
    ensures r.Ok? <==>
      && d.Keys <= RecordKeys
      && NameKey in d && d[NameKey].Str?
      && TechnicalIdKey in d && d[TechnicalIdKey].Int?
      && (ChildrenKey in d ==> d[ChildrenKey].IntList?)
      && (ParentKey in d ==> d[ParentKey].Int? || d[ParentKey].Null?)
    ensures !(d.Keys <= RecordKeys) || NameKey !in d ==> r == Err(TypeError)
    ensures r.Ok? ==> RecordId(d) == Ok(r.value.technicalId)
    ensures r.Ok? ==> r.value.name == d[NameKey].s
    ensures r.Ok? ==> forall k | k in d :: d[k] == Serialize(r.value)[k]
    ensures r.Ok? && ChildrenKey !in d ==> r.value.children == []
    ensures r.Ok? && ParentKey !in d ==> r.value.parent == None
  {
    if !(d.Keys <= RecordKeys) then Err(TypeError)
    else if NameKey !in d || !d[NameKey].Str? then Err(TypeError)
    else if RecordId(d).Err? then Err(RecordId(d).error)
    else if ChildrenKey in d && !d[ChildrenKey].IntList? then Err(TypeError)
    else if ParentKey in d && !(d[ParentKey].Int? || d[ParentKey].Null?) then Err(TypeError)
    else
      var children := if ChildrenKey in d then d[ChildrenKey].xs else [];
      var parent := if ParentKey in d && d[ParentKey].Int? then Some(d[ParentKey].i) else None;
      Ok(Task(d[NameKey].s, children, parent, RecordId(d).value))
  }

  /** Loading what was saved gives the task back, fields and id alike. */
  lemma RecordRoundTrip(t: Task)
    ensures RecordId(Serialize(t)) == Ok(t.technicalId)
    ensures FromRecord(Serialize(t)) == Ok(t)
  {
  }

  /** The registry of every constructed task (`ID_TO_RESOURCE`), and the
      operations that change the tasks in it. */
  class TaskStore {
    var resources: map<int, Task>

    constructor ()
      ensures resources == map[]
    {
      resources := map[];
    }

    /** `__post_init__`: a constructed task is filed under its id, replacing
        any task filed there before. */
    method Register(t: Task)
      modifies this
      ensures resources == old(resources)[t.technicalId := t]
    {
      resources := resources[t.technicalId := t];
    }

    /** `Task(name)`: no children, no parent, and the generator's next id.
        When every id already filed is below the counter, the new id is
        fresh and that stays true. */
    method NewTask(gen: TechnicalIdGen, name: string) returns (t: Task)
      modifies this, gen
      ensures t == Task(name, [], None, old(gen.counter))
      ensures gen.counter == old(gen.counter) + 1
      ensures resources == old(resources)[t.technicalId := t]
      ensures (forall id | id in old(resources) :: id < old(gen.counter)) ==>
        t.technicalId !in old(resources) && forall id | id in resources :: id < gen.counter
    {
      var id := gen.NextNum();
      t := Task(name, [], None, id);
      Register(t);
    }

    /** `Task.deserialize`: fast-forward the generator past the record's id,
        then build and register the task. A missing or non-integer id fails
        before the generator moves; a malformed remainder fails after. */
    method Deserialize(gen: TechnicalIdGen, d: map<string, Value>) returns (r: Result<Task, DecodeError>)
      modifies this, gen
      ensures RecordId(d).Err? ==>
        r == Err(RecordId(d).error) && gen.counter == old(gen.counter) && resources == old(resources)
      ensures RecordId(d).Ok? ==>
        r == FromRecord(d) && gen.counter == Max(old(gen.counter), RecordId(d).value + 1)
      ensures r.Ok? ==> resources == old(resources)[r.value.technicalId := r.value]
      ensures r.Ok? ==> gen.counter > r.value.technicalId
      ensures r.Err? ==> resources == old(resources)
      ensures (forall id | id in old(resources) :: id < old(gen.counter)) ==>
        forall id | id in resources :: id < gen.counter
    {
      var id := RecordId(d);
      if id.Err? {
        return Err(id.error);
      }
      gen.SetMinimum(id.value + 1);
      r := FromRecord(d);
      if r.Ok? {
        Register(r.value);
      }
    }

    /** `task.children_of(other)`. */
    method ChildrenOf(task: int, other: int) returns (r: Outcome<LinkError>)
      requires task in resources && other in resources
      modifies this
      ensures Linked(old(resources), task, other).Ok? ==>
        r == Pass && resources == Linked(old(resources), task, other).value
      ensures Linked(old(resources), task, other).Err? ==>
        r == Fail(Linked(old(resources), task, other).error) && resources == old(resources)
    {
      var next := Linked(resources, task, other);
      if next.Err? {
        return Fail(next.error);
      }
      resources := next.value;
      r := Pass;
    }

    /** `task.parent_of(other)`: the same link with the roles swapped. */
    method ParentOf(task: int, other: int) returns (r: Outcome<LinkError>)
      requires task in resources && other in resources
      modifies this
      ensures Linked(old(resources), other, task).Ok? ==>
        r == Pass && resources == Linked(old(resources), other, task).value
      ensures Linked(old(resources), other, task).Err? ==>
        r == Fail(Linked(old(resources), other, task).error) && resources == old(resources)
    {
      r := ChildrenOf(other, task);
    }

    /** `task.remove_child(other)`. */
    method RemoveChild(task: int, other: int) returns (r: Outcome<LinkError>)
      requires task in resources && other in resources
      modifies this
      ensures Unlinked(old(resources), task, other).Ok? ==>
        r == Pass && resources == Unlinked(old(resources), task, other).value
      ensures Unlinked(old(resources), task, other).Err? ==>
        r == Fail(NotAChild) && resources == old(resources)
    {
      var next := Unlinked(resources, task, other);
      if next.Err? {
        return Fail(next.error);
      }
      resources := next.value;
      r := Pass;
    }

    /** `task.remove_parent(other)`: the same unlink with the roles swapped. */
    method RemoveParent(task: int, other: int) returns (r: Outcome<LinkError>)
      requires task in resources && other in resources
      modifies this
      ensures Unlinked(old(resources), other, task).Ok? ==>
        r == Pass && resources == Unlinked(old(resources), other, task).value
      ensures Unlinked(old(resources), other, task).Err? ==>
        r == Fail(NotAChild) && resources == old(resources)
    {
      r := RemoveChild(other, task);
    }
  }
}
