/** The canvas editing store: the canvas being edited, a snapshot of it as loaded or
    last saved, and the edits between them. The canvas is a JSON-like tree because
    fields are written by dotted path. An edit that throws a TypeError (a path or a
    list through something that is not an object) leaves the state as it was, as an
    immer recipe that throws does. Ids come from the caller, the clock is a
    parameter, and JSON copies are value copies. */
module CanvasStore {
  import opened Common

  /** A JSON-like value; Time is a Date object. */
  datatype Value =
    | Null
    | Bool(b: bool)
    | Num(n: int)
    | Str(s: string)
    | Time(ms: int)
    | Arr(items: seq<Value>)
    | Obj(fields: map<string, Value>)

  /** An object's own fields: the canvas itself and every nested object. */
  type Doc = map<string, Value>

  // ---------------------------------------------------------------- dotted paths

  /** One step of setNestedValue's walk: a missing key becomes a new empty object, an
      object is entered, anything else throws. */
  function Enter(current: Doc, key: string): Option<Doc> {
    if key !in current then Some(map[])
    else if current[key].Obj? then Some(current[key].fields)
    else None
  }

  /** The object with `value` written at `keys`, or None if the walk throws. */
  function SetPath(doc: Doc, keys: seq<string>, value: Value): Option<Doc>
    requires |keys| > 0
    decreases |keys|
  {
    if |keys| == 1 then Some(doc[keys[0] := value])
    else match Enter(doc, keys[0])
      case None => None
      case Some(child) =>
        (match SetPath(child, keys[1..], value)
         case None => None
         case Some(updated) => Some(doc[keys[0] := Obj(updated)]))
  }

  /** The value at `keys`, if every step is an object holding the key. */
  function GetPath(doc: Doc, keys: seq<string>): Option<Value>
    requires |keys| > 0
    decreases |keys|
  {
    if keys[0] !in doc then None
    else if |keys| == 1 then Some(doc[keys[0]])
    else if doc[keys[0]].Obj? then GetPath(doc[keys[0]].fields, keys[1..])
    else None
  }

  /** The object `current` after i steps of the walk. */
  function Descend(doc: Doc, keys: seq<string>, i: nat): Option<Doc>
    requires i < |keys|
    decreases i
  {
    if i == 0 then Some(doc)
    else match Enter(doc, keys[0])
      case None => None
      case Some(child) => Descend(child, keys[1..], i - 1)
  }

  /** The nested objects a write into an empty object creates. */
  function Built(keys: seq<string>, value: Value): Doc
    requires |keys| > 0
    decreases |keys|
  {
    if |keys| == 1 then map[keys[0] := value] else map[keys[0] := Obj(Built(keys[1..], value))]
  }

  /** The two paths part ways at some key. */
  predicate Diverge(p: seq<string>, q: seq<string>)
    decreases |p|
  {
    |p| > 0 && |q| > 0 && (p[0] != q[0] || Diverge(p[1..], q[1..]))
  }

  lemma {:induction false} DescendStep(doc: Doc, keys: seq<string>, i: nat)
    requires i + 1 < |keys|
    ensures Descend(doc, keys, i + 1) ==
      match Descend(doc, keys, i)
      case None => None
      case Some(c) => Enter(c, keys[i])
    decreases i
  {
    if i > 0 {
      var step := Enter(doc, keys[0]);
      if step.Some? {
        DescendStep(step.value, keys[1..], i - 1);
      }
    }
  }

  lemma {:induction false} WalkFails(doc: Doc, keys: seq<string>, value: Value, i: nat)
    requires i < |keys| && Descend(doc, keys, i).None?
    ensures SetPath(doc, keys, value).None?
    decreases i
  {
    var step := Enter(doc, keys[0]);
    if step.Some? {
      WalkFails(step.value, keys[1..], value, i - 1);
    }
  }

  /** setNestedValue: walk down the path creating missing objects, then write the last
      key. The walk keeps the objects it passes, and the write is carried back up
      through them. */
  method SetNestedValue(obj: Doc, path: string, value: Value) returns (r: Option<Doc>)
    ensures r == SetPath(obj, Split(path, '.'), value)
  {
    var keys := Split(path, '.');
    var n := |keys|;
    var spine: seq<Doc> := [obj];
    var current := obj;
    var i := 0;
    while i < n - 1
      invariant 0 <= i <= n - 1
      invariant |spine| == i + 1 && spine[i] == current
      invariant forall j :: 0 <= j <= i ==> Descend(obj, keys, j) == Some(spine[j])
    {
      var key := keys[i];
      DescendStep(obj, keys, i);
      if key !in current {
        current := map[];
      } else if current[key].Obj? {
        current := current[key].fields;
      } else {
        WalkFails(obj, keys, value, i + 1);
        return None;
      }
      spine := spine + [current];
      i := i + 1;
    }
    var acc := current[keys[n - 1] := value];
    assert keys[n - 1..] == [keys[n - 1]];
    var j := n - 1;
    while j > 0
      invariant 0 <= j <= n - 1
      invariant SetPath(spine[j], keys[j..], value) == Some(acc)
    {
      DescendStep(obj, keys, j - 1);
      SetUp(spine[j - 1], spine[j], keys, j, value, acc);
      acc := spine[j - 1][keys[j - 1] := Obj(acc)];
      j := j - 1;
    }
    assert keys[0..] == keys;
    return Some(acc);
  }

  /** A write below the object entered at key j - 1 is carried up one level. */
  lemma SetUp(parent: Doc, child: Doc, keys: seq<string>, j: nat, value: Value, acc: Doc)
    requires 0 < j < |keys|
    requires Enter(parent, keys[j - 1]) == Some(child)
    requires SetPath(child, keys[j..], value) == Some(acc)
    ensures SetPath(parent, keys[j - 1..], value) == Some(parent[keys[j - 1] := Obj(acc)])
  {
    assert keys[j - 1..][0] == keys[j - 1] && keys[j - 1..][1..] == keys[j..];
  }

  /** A written value reads back at its path. */
  lemma {:induction false} SetThenGet(doc: Doc, keys: seq<string>, value: Value)
    requires |keys| > 0 && SetPath(doc, keys, value).Some?
    ensures GetPath(SetPath(doc, keys, value).value, keys) == Some(value)
    decreases |keys|
  {
    if |keys| > 1 {
      SetThenGet(Enter(doc, keys[0]).value, keys[1..], value);
    }
  }

  /** Every path that parts ways with the written one reads as before. */
  lemma {:induction false} SetKeepsOthers(doc: Doc, keys: seq<string>, value: Value, other: seq<string>)
    requires |keys| > 0 && SetPath(doc, keys, value).Some? && Diverge(keys, other)
    ensures GetPath(SetPath(doc, keys, value).value, other) == GetPath(doc, other)
    decreases |keys|
  {
    if keys[0] == other[0] {
      var child := Enter(doc, keys[0]).value;
      SetKeepsOthers(child, keys[1..], value, other[1..]);
      if keys[0] !in doc {
        EmptyHasNothing(other[1..]);
      }
    }
  }

  lemma EmptyHasNothing(keys: seq<string>)
    requires |keys| > 0
    ensures GetPath(map[], keys).None?
  {
  }

  /** Missing objects on the way are created: writing into an empty object builds the
      whole chain, and the walk then always succeeds. */
  lemma {:induction false} SetIntoEmpty(keys: seq<string>, value: Value)
    requires |keys| > 0
    ensures SetPath(map[], keys, value) == Some(Built(keys, value))
    decreases |keys|
  {
    if |keys| > 1 {
      SetIntoEmpty(keys[1..], value);
    }
  }

  /** The write fails exactly when some key on the way holds something other than an
      object. */
  lemma {:induction false} SetFailsIffBlocked(doc: Doc, keys: seq<string>, value: Value)
    requires |keys| > 0
    ensures SetPath(doc, keys, value).None? <==>
      exists i :: 0 < i < |keys| && Descend(doc, keys, i).None?
    decreases |keys|
  {
    if |keys| > 1 {
      var step := Enter(doc, keys[0]);
      if step.None? {
        assert 0 < 1 < |keys| && Descend(doc, keys, 1).None?;
        assert exists j :: 0 < j < |keys| && Descend(doc, keys, j).None?;
        assert SetPath(doc, keys, value).None?;
      } else {
        SetFailsIffBlocked(step.value, keys[1..], value);
        if SetPath(doc, keys, value).None? {
          var i :| 0 < i < |keys| - 1 && Descend(step.value, keys[1..], i).None?;
          assert Descend(doc, keys, i + 1) == Descend(step.value, keys[1..], i);
          assert 0 < i + 1 < |keys| && Descend(doc, keys, i + 1).None?;
          assert exists j :: 0 < j < |keys| && Descend(doc, keys, j).None?;
        } else {
          forall i | 0 < i < |keys| ensures Descend(doc, keys, i).Some? {
            if i > 1 {
              assert Descend(doc, keys, i) == Descend(step.value, keys[1..], i - 1);
              assert !(0 < i - 1 < |keys| - 1 && Descend(step.value, keys[1..], i - 1).None?);
            }
          }
        }
      }
    }
  }

  // ---------------------------------------------------------------- the roadmap lists

  /** JavaScript truthiness of a field that may be absent. */
  predicate IsTruthy(v: Option<Value>) {
    match v
    case None => false
    case Some(Null) => false
    case Some(Bool(b)) => b
    case Some(Num(n)) => n != 0
    case Some(Str(s)) => s != ""
    case Some(_) => true
  }

  function FieldOf(v: Value, key: string): Option<Value> {
    if v.Obj? && key in v.fields then Some(v.fields[key]) else None
  }

  /** `item.id === id`. */
  predicate HasId(v: Value, id: string) {
    FieldOf(v, "id") == Some(Str(id))
  }

  /** `canvas.roadmap[name]` when it is a list: the only case in which push, filter and
      find do not throw. */
  function RoadmapList(doc: Doc, name: string): Option<seq<Value>> {
    if "roadmap" in doc && doc["roadmap"].Obj? && name in doc["roadmap"].fields && doc["roadmap"].fields[name].Arr?
    then Some(doc["roadmap"].fields[name].items)
    else None
  }

  function WithList(doc: Doc, name: string, items: seq<Value>): Doc
    requires RoadmapList(doc, name).Some?
  {
    doc["roadmap" := Obj(doc["roadmap"].fields[name := Arr(items)])]
  }

  function Dirty(doc: Doc, flag: bool): Doc {
    doc["isDirty" := Bool(flag)]
  }

  /** push({...entry, id}). */
  function Appended(items: seq<Value>, entry: Doc, id: string): (r: seq<Value>)
    ensures |r| == |items| + 1 && r[..|items|] == items && HasId(r[|items|], id)
  {
    items + [Obj(entry["id" := Str(id)])]
  }

  /** filter(s => s.id !== id): None when an element is null, whose `.id` throws. */
  function Removed(items: seq<Value>, id: string): Option<seq<Value>> {
    if Null in items then None else Some(Filter(items, OtherId(id)))
  }

  function OtherId(id: string): Value -> bool {
    (v: Value) => !HasId(v, id)
  }

  /** The outcome of find(s => s.id === id). */
  datatype Search = FoundAt(index: nat) | Missing | Throws

  function FindById(items: seq<Value>, id: string): (r: Search)
    ensures r.FoundAt? ==> (
      && r.index < |items| && HasId(items[r.index], id)
      && forall k :: 0 <= k < r.index ==> items[k] != Null && !HasId(items[k], id))
    ensures r == Missing <==> forall k :: 0 <= k < |items| ==> items[k] != Null && !HasId(items[k], id)
    decreases |items|
  {
    if |items| == 0 then Missing
    else if items[0] == Null then Throws
    else if HasId(items[0], id) then FoundAt(0)
    else match FindById(items[1..], id)
      case FoundAt(k) => FoundAt(k + 1)
      case Missing => Missing
      case Throws => Throws
  }

  /** `step.completed = !step.completed`. */
  function Toggled(step: Value): Value
    requires step.Obj?
  {
    Obj(step.fields["completed" := Bool(!IsTruthy(FieldOf(step, "completed")))])
  }

  /** Object.assign(milestone, updates). */
  function Merged(milestone: Value, updates: Doc): Value
    requires milestone.Obj?
  {
    Obj(milestone.fields + updates)
  }

  /** Removing the id of an element just appended gives the list back, if the id was new
      and no element is null. */
  lemma AppendThenRemove(items: seq<Value>, entry: Doc, id: string)
    requires Null !in items && forall k :: 0 <= k < |items| ==> !HasId(items[k], id)
    ensures Removed(Appended(items, entry, id), id) == Some(items)
  {
    var keep := OtherId(id);
    var added := Obj(entry["id" := Str(id)]);
    assert Appended(items, entry, id) == items + [added];
    assert Null !in items + [added];
    FilterConcat(items, [added], keep);
    FilterAll(items, keep);
    FilterNone([added], keep);
    assert Filter(items + [added], keep) == items;
    assert Removed(items + [added], id) == Some(Filter(items + [added], keep));
  }

  /** Removal keeps, in order, exactly the elements without that id. */
  lemma RemovedSpec(items: seq<Value>, id: string, v: Value)
    ensures Removed(items, id).None? <==> Null in items
    ensures Removed(items, id).Some? ==> (v in Removed(items, id).value <==> v in items && !HasId(v, id))
    ensures Removed(items, id).Some? ==> |Removed(items, id).value| <= |items|
  {
    if Null !in items {
      FilterMembership(items, OtherId(id), v);
    }
  }

  /** Toggling a boolean flag twice restores the step. */
  lemma ToggleTwice(step: Value)
    requires step.Obj? && "completed" in step.fields && step.fields["completed"].Bool?
    ensures Toggled(Toggled(step)) == step
  {
    assert Toggled(Toggled(step)).fields == step.fields;
  }

  // ---------------------------------------------------------------- the edits

  /** updateField: the write, then isDirty set. */
  function EditField(doc: Doc, path: string, value: Value): Option<Doc> {
    match SetPath(doc, Split(path, '.'), value)
    case None => None
    case Some(d) => Some(Dirty(d, true))
  }

  function EditAdd(doc: Doc, name: string, entry: Doc, id: string): Option<Doc> {
    if RoadmapList(doc, name).None? then None
    else Some(Dirty(WithList(doc, name, Appended(RoadmapList(doc, name).value, entry, id)), true))
  }

  function EditRemove(doc: Doc, name: string, id: string): Option<Doc> {
    if RoadmapList(doc, name).None? then None
    else match Removed(RoadmapList(doc, name).value, id)
      case None => None
      case Some(rest) => Some(Dirty(WithList(doc, name, rest), true))
  }

  /** toggleNextStep and updateMilestone: change the first element with the id; without
      one nothing changes. */
  function EditFirst(doc: Doc, name: string, id: string, change: Value --> Value): Option<Doc>
    requires forall v: Value :: v.Obj? ==> change.requires(v)
  {
    if RoadmapList(doc, name).None? then None
    else
      var items := RoadmapList(doc, name).value;
      match FindById(items, id)
      case Throws => None
      case Missing => Some(doc)
      case FoundAt(k) => Some(Dirty(WithList(doc, name, items[k := change(items[k])]), true))
  }

  function ToggleStep(): Value --> Value {
    (v: Value) requires v.Obj? => Toggled(v)
  }

  function MergeInto(updates: Doc): Value --> Value {
    (v: Value) requires v.Obj? => Merged(v, updates)
  }

  /** A field write reads back (unless it is the dirty flag itself, which the action then
      sets) and always leaves the canvas dirty. */
  lemma EditFieldSpec(doc: Doc, path: string, value: Value)
    requires EditField(doc, path, value).Some?
    ensures EditField(doc, path, value).value["isDirty"] == Bool(true)
    ensures Split(path, '.')[0] != "isDirty" ==>
      GetPath(EditField(doc, path, value).value, Split(path, '.')) == Some(value)
  {
    var keys := Split(path, '.');
    var d := SetPath(doc, keys, value).value;
    SetThenGet(doc, keys, value);
    if keys[0] != "isDirty" {
      SetKeepsOthersTop(d, keys, value);
    }
  }

  /** Setting the top-level dirty flag leaves every path under another key alone. */
  lemma SetKeepsOthersTop(d: Doc, keys: seq<string>, value: Value)
    requires |keys| > 0 && keys[0] != "isDirty"
    ensures GetPath(Dirty(d, true), keys) == GetPath(d, keys)
  {
  }

  /** Adding appends one element with the new id after the old ones; removing keeps the
      rest in order; both always leave the canvas dirty, even when nothing was removed. */
  lemma ListEditsSpec(doc: Doc, name: string, entry: Doc, id: string)
    ensures EditAdd(doc, name, entry, id).Some? <==> RoadmapList(doc, name).Some?
    ensures EditAdd(doc, name, entry, id).Some? ==>
      var d := EditAdd(doc, name, entry, id).value;
      var before := RoadmapList(doc, name).value;
      && d["isDirty"] == Bool(true)
      && RoadmapList(d, name) == Some(Appended(before, entry, id))
    ensures EditRemove(doc, name, id).Some? ==>
      var d := EditRemove(doc, name, id).value;
      && d["isDirty"] == Bool(true)
      && RoadmapList(d, name) == Removed(RoadmapList(doc, name).value, id)
  {
  }

  /** toggleNextStep changes only the first step with the id and marks the canvas dirty
      only then. */
  lemma ToggleSpec(doc: Doc, id: string)
    requires EditFirst(doc, "nextSteps", id, ToggleStep()).Some?
    ensures var items := RoadmapList(doc, "nextSteps").value;
      var d := EditFirst(doc, "nextSteps", id, ToggleStep()).value;
      match FindById(items, id)
      case FoundAt(k) =>
        && d["isDirty"] == Bool(true)
        && RoadmapList(d, "nextSteps") == Some(items[k := Toggled(items[k])])
      case Missing => d == doc
      case Throws => false
  {
  }

  // ---------------------------------------------------------------- the store

  class Store {
    var canvasData: Option<Doc>
    var originalData: Option<Doc>
    var isLoading: bool
    var isSaving: bool
    var error: Option<string>
    var activeCell: Option<string>

    constructor()
      ensures canvasData.None? && originalData.None?
      ensures !isLoading && !isSaving && error.None? && activeCell.None?
    {
      canvasData := None;
      originalData := None;
      isLoading := false;
      isSaving := false;
      error := None;
      activeCell := None;
    }

    /** The flags that only their own setters change. */
    twostate predicate FlagsKept()
      reads this
    {
      && isLoading == old(isLoading) && isSaving == old(isSaving)
      && error == old(error) && activeCell == old(activeCell)
    }

    /** setCanvasData: the data, a copy of it as the snapshot, no error. */
    method SetCanvasData(data: Doc)
      modifies this
      ensures canvasData == Some(data) && originalData == Some(data) && error.None?
      ensures isLoading == old(isLoading) && isSaving == old(isSaving) && activeCell == old(activeCell)
    {
      canvasData := Some(data);
      originalData := Some(data);
      error := None;
    }

    /** clearCanvasData. */
    method ClearCanvasData()
      modifies this
      ensures canvasData.None? && originalData.None? && error.None?
      ensures isLoading == old(isLoading) && isSaving == old(isSaving) && activeCell == old(activeCell)
    {
      canvasData := None;
      originalData := None;
      error := None;
    }

    /** Apply an edit to the canvas; an edit that throws changes nothing. */
    method Commit(edit: Option<Doc>) returns (ok: bool)
      requires canvasData.Some?
      modifies this
      ensures ok == edit.Some?
      ensures canvasData == if ok then edit else old(canvasData)
      ensures originalData == old(originalData) && FlagsKept()
    {
      if edit.Some? {
        canvasData := edit;
        return true;
      }
      return false;
    }

    /** updateField. */
    method UpdateField(path: string, value: Value) returns (ok: bool)
      modifies this
      ensures old(canvasData).None? ==> canvasData.None? && ok
      ensures old(canvasData).Some? ==>
        var edit := EditField(old(canvasData).value, path, value);
        ok == edit.Some? && canvasData == (if ok then edit else old(canvasData))
      ensures originalData == old(originalData) && FlagsKept()
    {
      if canvasData.None? {
        return true;
      }
      var written := SetNestedValue(canvasData.value, path, value);
      var edit := if written.Some? then Some(Dirty(written.value, true)) else None;
      ok := Commit(edit);
    }

    /** addNextStep and addMilestone, with the id the caller drew. */
    method AddItem(name: string, entry: Doc, freshId: string) returns (ok: bool)
      modifies this
      ensures old(canvasData).None? ==> canvasData.None? && ok
      ensures old(canvasData).Some? ==>
        var edit := EditAdd(old(canvasData).value, name, entry, freshId);
        ok == edit.Some? && canvasData == (if ok then edit else old(canvasData))
      ensures originalData == old(originalData) && FlagsKept()
    {
      if canvasData.None? {
        return true;
      }
      ok := Commit(EditAdd(canvasData.value, name, entry, freshId));
    }

    method AddNextStep(step: Doc, freshId: string) returns (ok: bool)
      modifies this
      ensures old(canvasData).Some? ==>
        var edit := EditAdd(old(canvasData).value, "nextSteps", step, freshId);
        ok == edit.Some? && canvasData == (if ok then edit else old(canvasData))
      ensures old(canvasData).None? ==> canvasData.None? && ok
      ensures originalData == old(originalData) && FlagsKept()
    {
      ok := AddItem("nextSteps", step, freshId);
    }

    method AddMilestone(milestone: Doc, freshId: string) returns (ok: bool)
      modifies this
      ensures old(canvasData).Some? ==>
        var edit := EditAdd(old(canvasData).value, "milestones", milestone, freshId);
        ok == edit.Some? && canvasData == (if ok then edit else old(canvasData))
      ensures old(canvasData).None? ==> canvasData.None? && ok
      ensures originalData == old(originalData) && FlagsKept()
    {
      ok := AddItem("milestones", milestone, freshId);
    }

    /** removeNextStep and removeMilestone. */
    method RemoveItem(name: string, id: string) returns (ok: bool)
      modifies this
      ensures old(canvasData).None? ==> canvasData.None? && ok
      ensures old(canvasData).Some? ==>
        var edit := EditRemove(old(canvasData).value, name, id);
        ok == edit.Some? && canvasData == (if ok then edit else old(canvasData))
      ensures originalData == old(originalData) && FlagsKept()
    {
      if canvasData.None? {
        return true;
      }
      ok := Commit(EditRemove(canvasData.value, name, id));
    }

    method RemoveNextStep(stepId: string) returns (ok: bool)
      modifies this
      ensures old(canvasData).Some? ==>
        var edit := EditRemove(old(canvasData).value, "nextSteps", stepId);
        ok == edit.Some? && canvasData == (if ok then edit else old(canvasData))
      ensures old(canvasData).None? ==> canvasData.None? && ok
      ensures originalData == old(originalData) && FlagsKept()
    {
      ok := RemoveItem("nextSteps", stepId);
    }

    method RemoveMilestone(milestoneId: string) returns (ok: bool)
      modifies this
      ensures old(canvasData).Some? ==>
        var edit := EditRemove(old(canvasData).value, "milestones", milestoneId);
        ok == edit.Some? && canvasData == (if ok then edit else old(canvasData))
      ensures old(canvasData).None? ==> canvasData.None? && ok
      ensures originalData == old(originalData) && FlagsKept()
    {
      ok := RemoveItem("milestones", milestoneId);
    }

    /** toggleNextStep. */
    method ToggleNextStep(stepId: string) returns (ok: bool)
      modifies this
      ensures old(canvasData).None? ==> canvasData.None? && ok
      ensures old(canvasData).Some? ==>
        var edit := EditFirst(old(canvasData).value, "nextSteps", stepId, ToggleStep());
        ok == edit.Some? && canvasData == (if ok then edit else old(canvasData))
      ensures originalData == old(originalData) && FlagsKept()
    {
      if canvasData.None? {
        return true;
      }
      ok := Commit(EditFirst(canvasData.value, "nextSteps", stepId, ToggleStep()));
    }

    /** updateMilestone. */
    method UpdateMilestone(milestoneId: string, updates: Doc) returns (ok: bool)
      modifies this
      ensures old(canvasData).None? ==> canvasData.None? && ok
      ensures old(canvasData).Some? ==>
        var edit := EditFirst(old(canvasData).value, "milestones", milestoneId, MergeInto(updates));
        ok == edit.Some? && canvasData == (if ok then edit else old(canvasData))
      ensures originalData == old(originalData) && FlagsKept()
    {
      if canvasData.None? {
        return true;
      }
      ok := Commit(EditFirst(canvasData.value, "milestones", milestoneId, MergeInto(updates)));
    }

    method SetActiveCell(cellId: Option<string>)
      modifies this
      ensures activeCell == cellId
      ensures canvasData == old(canvasData) && originalData == old(originalData)
      ensures isLoading == old(isLoading) && isSaving == old(isSaving) && error == old(error)
    {
      activeCell := cellId;
    }

    method SetLoading(loading: bool)
      modifies this
      ensures isLoading == loading
      ensures canvasData == old(canvasData) && originalData == old(originalData)
      ensures isSaving == old(isSaving) && error == old(error) && activeCell == old(activeCell)
    {
      isLoading := loading;
    }

    method SetSaving(saving: bool)
      modifies this
      ensures isSaving == saving
      ensures canvasData == old(canvasData) && originalData == old(originalData)
      ensures isLoading == old(isLoading) && error == old(error) && activeCell == old(activeCell)
    {
      isSaving := saving;
    }

    method SetError(e: Option<string>)
      modifies this
      ensures error == e
      ensures canvasData == old(canvasData) && originalData == old(originalData)
      ensures isLoading == old(isLoading) && isSaving == old(isSaving) && activeCell == old(activeCell)
    {
      error := e;
    }

    /** resetChanges: back to the snapshot, if there is one. */
    method ResetChanges()
      modifies this
      ensures canvasData == if old(originalData).Some? then old(originalData) else old(canvasData)
      ensures originalData == old(originalData) && FlagsKept()
    {
      if originalData.Some? {
        canvasData := originalData;
      }
    }

    /** markClean: not dirty, saved now, and the snapshot taken from the canvas. */
    method MarkClean(now: int)
      modifies this
      ensures old(canvasData).None? ==> canvasData == old(canvasData) && originalData == old(originalData)
      ensures old(canvasData).Some? ==>
        var saved := Dirty(old(canvasData).value, false)["lastSaved" := Time(now)];
        canvasData == Some(saved) && originalData == Some(saved)
      ensures FlagsKept()
    {
      if canvasData.Some? {
        var saved := Dirty(canvasData.value, false)["lastSaved" := Time(now)];
        canvasData := Some(saved);
        originalData := Some(saved);
      }
    }
  }

  /** Loading a canvas, editing it and resetting gives back what was loaded; after
      markClean a reset changes nothing. */
  method LoadEditReset(store: Store, data: Doc, path: string, value: Value, stepId: string, now: int)
    modifies store
    ensures store.canvasData == Some(Dirty(data, false)["lastSaved" := Time(now)])
  {
    store.SetCanvasData(data);
    var _ := store.UpdateField(path, value);
    var _ := store.RemoveNextStep(stepId);
    store.ResetChanges();
    assert store.canvasData == Some(data);
    store.MarkClean(now);
    var _ := store.ToggleNextStep(stepId);
    store.ResetChanges();
  }
}
