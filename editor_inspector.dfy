/**
 * The inspector's plugin registry and change requests (editor/editor_inspector.cpp):
 * the static `inspector_plugins` array with its count, the property-editor
 * choice of `instantiate_property_editor`, and `_edit_request_change`.
 *
 * Plugins are identified by number; an empty `Ref` is `None`. The array's
 * capacity `MAX_PLUGINS` is declared in editor_inspector.h, which is not part
 * of this model, so it is a constructor argument.
 */
module Inspector {
  import opened Wrappers

  datatype AddOutcome = Full | AlreadyPresent | Added
  datatype RemoveOutcome = RemoveRefused | NotFound | Removed(index: nat)

  /** The registered plugins, in slot order. */
  function Registered(slots: seq<Option<nat>>, count: nat): (r: seq<nat>)
    requires count <= |slots| && forall k :: 0 <= k < count ==> slots[k].Some?
    ensures |r| == count && forall k :: 0 <= k < count ==> r[k] == slots[k].value
  {
    seq(count, k requires 0 <= k < count => slots[k].value)
  }

  predicate Distinct(s: seq<nat>)
  {
    forall i, j :: 0 <= i < j < |s| ==> s[i] != s[j]
  }

  /** `inspector_plugins` and `inspector_plugin_count`. */
  class PluginRegistry {
    var slots: array<Option<nat>>
    var count: nat

    ghost predicate Valid()
      reads this, slots
    {
      count <= slots.Length
      && (forall k :: 0 <= k < count ==> slots[k].Some?)
      && (forall k :: count <= k < slots.Length ==> slots[k].None?)
      && Distinct(Registered(slots[..], count))
    }

    function Plugins(): (r: seq<nat>)
      reads this, slots
      requires Valid()
    {
      Registered(slots[..], count)
    }

    constructor (capacity: nat)
      ensures Valid() && fresh(slots) && slots.Length == capacity && Plugins() == []
    {
      slots := new Option<nat>[capacity](_ => None);
      count := 0;
    }

    /** `add_inspector_plugin`: refused when full, ignored when present, else stored in the next slot. */
    method AddInspectorPlugin(p: nat) returns (outcome: AddOutcome)
      requires Valid()
      modifies this`count, slots
      ensures Valid() && slots == old(slots)
      ensures outcome == Full <==> old(count) == slots.Length
      ensures outcome == AlreadyPresent <==> old(count) < slots.Length && p in old(Plugins())
      ensures outcome == Added ==> Plugins() == old(Plugins()) + [p]
      ensures outcome != Added ==> Plugins() == old(Plugins()) && slots[..] == old(slots[..])
    {
      if count == slots.Length {
        return Full;
      }
      var i := 0;
      while i < count
        invariant 0 <= i <= count
        invariant p !in Plugins()[..i]
      {
        if slots[i] == Some(p) {
          assert Plugins()[i] == p;
          return AlreadyPresent;
        }
        i := i + 1;
      }
      assert Plugins()[..count] == Plugins();
      ghost var before := Plugins();
      slots[count] := Some(p);
      count := count + 1;
      assert Plugins() == before + [p];
      outcome := Added;
    }

    /**
     * `remove_inspector_plugin`, with the vacated last slot always cleared
     * (the source clears it only when the removed plugin was last; see
     * `RemoveAsWritten`). Refused when the array is full, even for a present
     * plugin, and when the plugin is absent.
     */
    method RemoveInspectorPlugin(p: nat) returns (outcome: RemoveOutcome)
      requires Valid()
      modifies this`count, slots
      ensures Valid() && slots == old(slots)
      ensures outcome == RemoveRefused <==> old(count) == slots.Length
      ensures outcome == NotFound <==> old(count) < slots.Length && p !in old(Plugins())
      ensures outcome.Removed? ==> (outcome.index < old(count) && old(Plugins())[outcome.index] == p
        && Plugins() == old(Plugins())[..outcome.index] + old(Plugins())[outcome.index + 1..])
      ensures !outcome.Removed? ==> Plugins() == old(Plugins()) && slots[..] == old(slots[..])
    {
      if count == slots.Length {
        return RemoveRefused;
      }
      var idx := IndexOf(p);
      if idx == -1 {
        return NotFound;
      }
      ShiftOut(idx);
      outcome := Removed(idx);
    }

    /** The search loop of `remove_inspector_plugin`: the slot holding `p`, or -1. */
    method IndexOf(p: nat) returns (idx: int)
      requires Valid()
      ensures -1 <= idx < count
      ensures idx == -1 <==> p !in Plugins()
      ensures idx >= 0 ==> Plugins()[idx] == p
    {
      var i := 0;
      while i < count
        invariant 0 <= i <= count
        invariant p !in Plugins()[..i]
      {
        if slots[i] == Some(p) {
          return i;
        }
        i := i + 1;
      }
      assert Plugins()[..count] == Plugins();
      return -1;
    }

    /** The shift loop of `remove_inspector_plugin`, then the vacated last slot cleared. */
    method ShiftOut(idx: nat)
      requires Valid() && idx < count
      modifies this`count, slots
      ensures Valid() && slots == old(slots) && count == old(count) - 1
      ensures Plugins() == old(Plugins())[..idx] + old(Plugins())[idx + 1..]
    {
      ghost var before := Plugins();
      ShiftDown(idx);
      slots[count - 1] := None;
      count := count - 1;
      ghost var after := before[..idx] + before[idx + 1..];
      assert Plugins() == after by {
        assert forall k :: 0 <= k < count ==> slots[k] == Some(after[k]);
      }
      DistinctRemove(before, idx);
    }

    /** Slots `idx+1 .. count-1` each moved one place down; the rest untouched. */
    method ShiftDown(idx: nat)
      requires idx < count <= slots.Length
      modifies slots
      ensures forall k :: 0 <= k < idx ==> slots[k] == old(slots[k])
      ensures forall k :: idx <= k < count - 1 ==> slots[k] == old(slots[k + 1])
      ensures forall k :: count - 1 <= k < slots.Length ==> slots[k] == old(slots[k])
    {
      var i := idx;
      while i < count - 1
        invariant idx <= i <= count - 1
        invariant forall k :: 0 <= k < idx ==> slots[k] == old(slots[k])
        invariant forall k :: idx <= k < i ==> slots[k] == old(slots[k + 1])
        invariant forall k :: i <= k < slots.Length ==> slots[k] == old(slots[k])
      {
        slots[i] := slots[i + 1];
        i := i + 1;
      }
    }

    /** `cleanup_plugins`: every registered slot is released and the count drops to zero. */
    method CleanupPlugins()
      requires Valid()
      modifies this`count, slots
      ensures Valid() && slots == old(slots) && Plugins() == []
      ensures forall k :: 0 <= k < slots.Length ==> slots[k].None?
    {
      var i := 0;
      while i < count
        invariant 0 <= i <= count <= slots.Length && count == old(count)
        invariant forall k :: 0 <= k < i ==> slots[k].None?
        invariant forall k :: i <= k < slots.Length ==> slots[k] == old(slots[k])
      {
        slots[i] := None;
        i := i + 1;
      }
      count := 0;
    }

    /** `instantiate_property_editor` over what each registered plugin adds for the property. */
    method InstantiatePropertyEditor(added: seq<seq<Editor>>) returns (prop: Option<nat>, deleted: seq<nat>)
      requires Valid() && |added| == count
      ensures (prop, deleted) == Pick(added, |added|)
    {
      prop := None;
      deleted := [];
      var i := count - 1;
      assert [] + Pick(added, |added|).1 == Pick(added, |added|).1;
      while i >= 0
        invariant -1 <= i < count
        invariant prop == None
        invariant Pick(added, |added|) == Then(deleted, Pick(added, i + 1))
      {
        var eds := added[i];
        if |eds| > 0 {
          var extras := Ids(eds[1..]);
          if eds[0].isProperty {
            return Some(eds[0].id), deleted + extras;
          }
          ghost var rest := Pick(added, i);
          assert deleted + (extras + [eds[0].id] + rest.1) == (deleted + extras + [eds[0].id]) + rest.1;
          deleted := deleted + extras + [eds[0].id];
        }
        i := i - 1;
      }
      assert deleted + [] == deleted;
    }
  }

  lemma DistinctRemove(s: seq<nat>, idx: nat)
    requires Distinct(s) && idx < |s|
    ensures Distinct(s[..idx] + s[idx + 1..])
  {
    var r := s[..idx] + s[idx + 1..];
    forall i, j | 0 <= i < j < |r|
      ensures r[i] != r[j]
    {
      var i' := if i < idx then i else i + 1;
      var j' := if j < idx then j else j + 1;
      assert r[i] == s[i'] && r[j] == s[j'];
    }
  }

  /** A property editor a plugin adds; only an `EditorProperty` can be returned. */
  datatype Editor = Editor(id: nat, isProperty: bool)

  function Ids(eds: seq<Editor>): (r: seq<nat>)
    ensures |r| == |eds| && forall k :: 0 <= k < |eds| ==> r[k] == eds[k].id
  {
    seq(|eds|, k requires 0 <= k < |eds| => eds[k].id)
  }

  function Then(deleted: seq<nat>, rest: (Option<nat>, seq<nat>)): (Option<nat>, seq<nat>)
  {
    (rest.0, deleted + rest.1)
  }

  /**
   * The editor chosen scanning plugins `n-1` down to `0`, and the editors
   * deleted on the way: every editor after a plugin's first, and a first one
   * that is not an `EditorProperty`.
   */
  function Pick(added: seq<seq<Editor>>, n: nat): (r: (Option<nat>, seq<nat>))
    requires n <= |added|
    decreases n
  {
    if n == 0 then (None, [])
    else
      var eds := added[n - 1];
      if |eds| == 0 then Pick(added, n - 1)
      else if eds[0].isProperty then (Some(eds[0].id), Ids(eds[1..]))
      else Then(Ids(eds[1..]) + [eds[0].id], Pick(added, n - 1))
  }

  /** The chosen editor is the first editor of the highest-numbered plugin whose first editor is an `EditorProperty`. */
  lemma {:induction false} PickHighest(added: seq<seq<Editor>>, n: nat)
    requires n <= |added|
    ensures Pick(added, n).0.Some? <==> exists k :: 0 <= k < n && |added[k]| > 0 && added[k][0].isProperty
    ensures Pick(added, n).0.Some? ==>
      exists k :: (0 <= k < n && |added[k]| > 0 && added[k][0].isProperty
        && Pick(added, n).0.value == added[k][0].id
        && forall j :: k < j < n ==> |added[j]| == 0 || !added[j][0].isProperty)
    decreases n
  {
    if n > 0 {
      var eds := added[n - 1];
      if |eds| > 0 && eds[0].isProperty {
        assert Pick(added, n).0 == Some(eds[0].id);
        assert 0 <= n - 1 < n && |added[n - 1]| > 0 && added[n - 1][0].isProperty;
      } else {
        assert Pick(added, n).0 == Pick(added, n - 1).0;
        PickHighest(added, n - 1);
        if Pick(added, n).0.Some? {
          var k :| (0 <= k < n - 1 && |added[k]| > 0 && added[k][0].isProperty
            && Pick(added, n - 1).0.value == added[k][0].id
            && forall j :: k < j < n - 1 ==> |added[j]| == 0 || !added[j][0].isProperty);
          assert forall j :: k < j < n ==> |added[j]| == 0 || !added[j][0].isProperty;
        }
      }
    }
  }

  /** Editors after a plugin's first are always deleted, up to the plugin whose editor is returned. */
  lemma {:induction false} PickDeletesExtras(added: seq<seq<Editor>>, n: nat, j: nat, e: nat)
    requires j < n <= |added| && 1 <= e < |added[j]|
    requires forall m :: j < m < n ==> |added[m]| == 0 || !added[m][0].isProperty
    ensures added[j][e].id in Pick(added, n).1
    decreases n
  {
    var eds := added[n - 1];
    if n - 1 == j {
      assert Ids(eds[1..])[e - 1] == added[j][e].id;
    } else {
      PickDeletesExtras(added, n - 1, j, e);
    }
  }

  /** The array after `remove_inspector_plugin` as written: the shift, then a clear of slot `idx` only if it was the last one. */
  function RemoveAsWritten(slots: seq<Option<nat>>, count: nat, idx: nat): (r: seq<Option<nat>>)
    requires idx < count <= |slots|
    ensures |r| == |slots|
    ensures forall k :: 0 <= k < idx ==> r[k] == slots[k]
    ensures forall k :: idx <= k < count - 1 ==> r[k] == slots[k + 1]
    ensures idx == count - 1 ==> r[count - 1] == None
    ensures idx < count - 1 ==> r[count - 1] == slots[count - 1]
  {
    var shifted := seq(|slots|, k requires 0 <= k < |slots| => if idx <= k < count - 1 then slots[k + 1] else slots[k]);
    if idx == count - 1 then shifted[idx := None] else shifted
  }

  /**
   * Removing any plugin but the last leaves the last plugin in the vacated
   * slot: with [1, 2] registered, removing 1 gives count 1 and slots [2, 2],
   * a reference that `cleanup_plugins` never releases.
   */
  lemma RemoveAsWrittenLeavesStaleSlot()
    ensures RemoveAsWritten([Some(1), Some(2)], 2, 0) == [Some(2), Some(2)]
  {
  }

  /** `EditorInspector`'s change-request state. */
  class InspectorState {
    var editedObject: nat
    var changing: bool
    var updateTreePending: bool
    var pending: set<string>

    /** `_edit_request_change`: other objects and requests while changing are ignored; "" asks for a tree update. */
    method EditRequestChange(obj: nat, property: string)
      modifies this`updateTreePending, this`pending
      ensures obj != editedObject || changing ==> updateTreePending == old(updateTreePending) && pending == old(pending)
      ensures obj == editedObject && !changing && property == "" ==> updateTreePending && pending == old(pending)
      ensures obj == editedObject && !changing && property != "" ==>
        pending == old(pending) + {property} && updateTreePending == old(updateTreePending)
    {
      if editedObject != obj {
        return;
      }
      if changing {
        return;
      }
      if property == "" {
        updateTreePending := true;
      } else {
        pending := pending + {property};
      }
    }
  }
}
