/**
 * The change finder of the breaking-point experiment: two directories hold
 * one file per recorded call of a function, under an old and a new library
 * version.  Each file's lines are the call's arguments followed by its
 * return value.  Calls recorded under one version only are grouped by their
 * arguments, and an argument tuple that ended up with two or more return
 * values is a change worth reporting.
 */
module ChangeRepo {
  import opened Wrappers
  import opened Seqs
  import opened Dicts

  /** The lines of one recorded call: the arguments, then the return value. */
  type Lines = seq<string>

  /** `get_key(values)`: `tuple(values[0:-1])`, every line but the last. */
  function GetKey(values: Lines): (r: Lines)
    ensures values != [] ==> |r| == |values| - 1
    ensures values == [] ==> r == []
    ensures forall i :: 0 <= i < |r| ==> r[i] == values[i]
  {
    if values == [] then [] else values[..|values| - 1]
  }

  /** `get_value(values)`: the last line; `None` where `values[-1]` raises `IndexError`. */
  function GetValue(values: Lines): (r: Option<string>)
    ensures r.Some? <==> values != []
    ensures r.Some? ==> r.value == values[|values| - 1]
  {
    if values == [] then None else Some(values[|values| - 1])
  }

  /** Key and value together give back the lines they were taken from. */
  lemma KeyValueRoundTrip(values: Lines)
    requires values != []
    ensures GetKey(values) + [GetValue(values).value] == values
  {
    assert values[..|values| - 1] + [values[|values| - 1]] == values;
  }

  /** One recorded call, tagged with the version it was recorded under. */
  datatype ArgReturnValue = ArgReturnValue(argValue: Lines, returnValue: string, isNew: bool)
  {
    function IsNew(): bool
    {
      isNew
    }

    /** `is_old`: the negation of `is_new`. */
    function IsOld(): (r: bool)
      ensures r <==> !IsNew()
    {
      !IsNew()
    }

    /** `__repr__`: the return value after a label naming the version. */
    function Repr(): (r: string)
      ensures IsNew() ==> r == "New return: " + returnValue
      ensures IsOld() ==> r == "Old return: " + returnValue
    {
      if IsNew() then "New return: " + returnValue else "Old return: " + returnValue
    }
  }

  /** The grouping `arg_return_values`: argument tuple to the calls recorded for it. */
  type Groups = Dict<Lines, seq<ArgReturnValue>>

  /** `add_new`: the call is appended to its group, which is created when missing. */
  function WithNew(d: Groups, v: ArgReturnValue): (r: Groups)
    requires d.Valid()
    ensures r.Valid()
    ensures v.argValue in r.items && r.items[v.argValue] == d.GetOr(v.argValue, []) + [v]
    ensures forall k :: k != v.argValue ==> (k in r.items <==> k in d.items)
    ensures forall k :: k != v.argValue && k in d.items ==> r.items[k] == d.items[k]
  {
    if v.argValue in d.items then d.Put(v.argValue, d.items[v.argValue] + [v])
    else d.Put(v.argValue, [v])
  }

  /** `add_old`: the call joins an existing group and never opens one. */
  function WithOld(d: Groups, v: ArgReturnValue): (r: Groups)
    requires d.Valid()
    ensures r.Valid()
    ensures r.keys == d.keys
    ensures v.argValue !in d.items ==> r == d
    ensures v.argValue in d.items ==> r.items == d.items[v.argValue := d.items[v.argValue] + [v]]
  {
    if v.argValue in d.items then d.Put(v.argValue, d.items[v.argValue] + [v]) else d
  }

  /** Every call sits in the group of its own arguments. */
  ghost predicate Grouped(d: Groups)
  {
    forall k, i :: k in d.items && 0 <= i < |d.items[k]| ==> d.items[k][i].argValue == k
  }

  /** Every group was opened by a call recorded under the new version. */
  ghost predicate OpenedByNew(d: Groups)
  {
    forall k :: k in d.items ==> d.items[k] != [] && d.items[k][0].IsNew()
  }

  /** The shape the repository keeps: a valid dictionary of well-formed groups. */
  ghost predicate WellFormed(d: Groups)
  {
    d.Valid() && Grouped(d) && OpenedByNew(d)
  }

  /** Adding a new-version call keeps the groups well formed. */
  lemma WithNewWellFormed(d: Groups, v: ArgReturnValue)
    requires WellFormed(d) && v.IsNew()
    ensures WellFormed(WithNew(d, v))
  {
    var r := WithNew(d, v);
    forall k, i | k in r.items && 0 <= i < |r.items[k]|
      ensures r.items[k][i].argValue == k
    {
      if k == v.argValue {
        var g := d.GetOr(v.argValue, []);
        if i < |g| {
          assert r.items[k][i] == g[i];
        }
      }
    }
  }

  /** Adding an old-version call keeps the groups well formed. */
  lemma WithOldWellFormed(d: Groups, v: ArgReturnValue)
    requires WellFormed(d)
    ensures WellFormed(WithOld(d, v))
  {
    var r := WithOld(d, v);
    if v.argValue in d.items {
      forall k, i | k in r.items && 0 <= i < |r.items[k]|
        ensures r.items[k][i].argValue == k
      {
        if k == v.argValue && i < |d.items[k]| {
          assert r.items[k][i] == d.items[k][i];
        }
      }
    }
  }

  /** `list_files` followed by the set differences of `create`. */
  function OnlyIn(oldFiles: set<string>, newFiles: set<string>): (r: (set<string>, set<string>))
    ensures r.0 <= newFiles && r.1 <= oldFiles
    ensures r.0 !! r.1 && r.0 !! oldFiles && r.1 !! newFiles
    ensures r.0 + r.1 + (oldFiles * newFiles) == oldFiles + newFiles
  {
    (newFiles - oldFiles, oldFiles - newFiles)
  }

  /** `order` lists each file of `files` once: one iteration order of a Python set. */
  ghost predicate Enumerates(order: seq<string>, files: set<string>)
  {
    NoDuplicates(order) && forall f :: f in order <==> f in files
  }

  /** Every file in `order` exists in `dir` and has at least one line. */
  predicate Readable(dir: map<string, Lines>, order: seq<string>)
  {
    forall i :: 0 <= i < |order| ==> order[i] in dir && dir[order[i]] != []
  }

  /** The call recorded in each file of `order`, in that order. */
  function Entries(dir: map<string, Lines>, order: seq<string>, isNew: bool): (r: seq<ArgReturnValue>)
    requires Readable(dir, order)
    ensures |r| == |order|
    ensures forall i :: 0 <= i < |r| ==>
      r[i] == ArgReturnValue(GetKey(dir[order[i]]), GetValue(dir[order[i]]).value, isNew)
  {
    if order == [] then []
    else
      var f := order[|order| - 1];
      Entries(dir, order[..|order| - 1], isNew)
      + [ArgReturnValue(GetKey(dir[f]), GetValue(dir[f]).value, isNew)]
  }

  /** One more readable file adds its call to the end of the entries. */
  lemma EntriesStep(dir: map<string, Lines>, order: seq<string>, i: nat, isNew: bool)
    requires i < |order| && Readable(dir, order[..i]) && order[i] in dir && dir[order[i]] != []
    ensures Readable(dir, order[..i + 1])
    ensures Entries(dir, order[..i + 1], isNew)
      == Entries(dir, order[..i], isNew) + [ArgReturnValue(GetKey(dir[order[i]]), GetValue(dir[order[i]]).value, isNew)]
  {
    assert order[..i + 1][..i] == order[..i];
  }

  /** The first loop of `create`: `add_new` for each call, in order. */
  function AddedNew(d: Groups, vs: seq<ArgReturnValue>): (r: Groups)
    requires d.Valid()
    ensures r.Valid()
  {
    if vs == [] then d else WithNew(AddedNew(d, vs[..|vs| - 1]), vs[|vs| - 1])
  }

  /** The second loop of `create`: `add_old` for each call, in order. */
  function AddedOld(d: Groups, vs: seq<ArgReturnValue>): (r: Groups)
    requires d.Valid()
    ensures r.Valid()
  {
    if vs == [] then d else WithOld(AddedOld(d, vs[..|vs| - 1]), vs[|vs| - 1])
  }

  /** Some call of `vs` has the arguments `k`. */
  ghost predicate HasCallFor(vs: seq<ArgReturnValue>, k: Lines)
  {
    exists i :: 0 <= i < |vs| && vs[i].argValue == k
  }

  lemma HasCallForLast(vs: seq<ArgReturnValue>, k: Lines)
    requires vs != []
    ensures HasCallFor(vs, k) <==> HasCallFor(vs[..|vs| - 1], k) || vs[|vs| - 1].argValue == k
  {
    var init := vs[..|vs| - 1];
    if HasCallFor(vs, k) {
      var i :| 0 <= i < |vs| && vs[i].argValue == k;
      if i < |init| {
        assert init[i].argValue == k;
      }
    }
    if HasCallFor(init, k) {
      var i :| 0 <= i < |init| && init[i].argValue == k;
      assert vs[i].argValue == k;
    }
  }

  /** A group exists after the new-version calls exactly when it existed or one of them opened it. */
  lemma {:induction false} AddedNewKey(d: Groups, vs: seq<ArgReturnValue>, k: Lines)
    requires d.Valid()
    ensures k in AddedNew(d, vs).items <==> k in d.items || HasCallFor(vs, k)
  {
    if vs != [] {
      AddedNewKey(d, vs[..|vs| - 1], k);
      HasCallForLast(vs, k);
    }
  }

  lemma AddedNewStep(d: Groups, vs: seq<ArgReturnValue>, v: ArgReturnValue)
    requires d.Valid()
    ensures AddedNew(d, vs + [v]) == WithNew(AddedNew(d, vs), v)
  {
    assert (vs + [v])[..|vs|] == vs;
  }

  lemma AddedOldStep(d: Groups, vs: seq<ArgReturnValue>, v: ArgReturnValue)
    requires d.Valid()
    ensures AddedOld(d, vs + [v]) == WithOld(AddedOld(d, vs), v)
  {
    assert (vs + [v])[..|vs|] == vs;
  }

  /** The new-version calls open exactly the groups of their own arguments. */
  lemma AddedNewKeys(d: Groups, vs: seq<ArgReturnValue>)
    requires d.Valid()
    ensures forall k :: k in AddedNew(d, vs).items <==> k in d.items || HasCallFor(vs, k)
  {
    forall k
      ensures k in AddedNew(d, vs).items <==> k in d.items || HasCallFor(vs, k)
    {
      AddedNewKey(d, vs, k);
    }
  }

  /** The old-version calls never change which groups exist. */
  lemma {:induction false} AddedOldKeys(d: Groups, vs: seq<ArgReturnValue>)
    requires d.Valid()
    ensures AddedOld(d, vs).keys == d.keys
  {
    if vs != [] {
      AddedOldKeys(d, vs[..|vs| - 1]);
    }
  }

  /** New-version calls keep a well-formed grouping well formed. */
  lemma {:induction false} AddedNewWellFormed(d: Groups, vs: seq<ArgReturnValue>)
    requires WellFormed(d)
    requires forall i :: 0 <= i < |vs| ==> vs[i].IsNew()
    ensures WellFormed(AddedNew(d, vs))
  {
    if vs != [] {
      AddedNewWellFormed(d, vs[..|vs| - 1]);
      WithNewWellFormed(AddedNew(d, vs[..|vs| - 1]), vs[|vs| - 1]);
    }
  }

  /** Old-version calls keep a well-formed grouping well formed. */
  lemma {:induction false} AddedOldWellFormed(d: Groups, vs: seq<ArgReturnValue>)
    requires WellFormed(d)
    ensures WellFormed(AddedOld(d, vs))
  {
    if vs != [] {
      AddedOldWellFormed(d, vs[..|vs| - 1]);
      WithOldWellFormed(AddedOld(d, vs[..|vs| - 1]), vs[|vs| - 1]);
    }
  }

  /** Some file of `order` records a call with the arguments `k`. */
  ghost predicate HasFileFor(dir: map<string, Lines>, order: seq<string>, k: Lines)
  {
    exists i :: 0 <= i < |order| && order[i] in dir && GetKey(dir[order[i]]) == k
  }

  /** The calls read from `order` have the arguments `k` exactly when one of its files records them. */
  lemma EntriesKey(dir: map<string, Lines>, order: seq<string>, isNew: bool, k: Lines)
    requires Readable(dir, order)
    ensures HasCallFor(Entries(dir, order, isNew), k) <==> HasFileFor(dir, order, k)
  {
    var vs := Entries(dir, order, isNew);
    if HasCallFor(vs, k) {
      var i :| 0 <= i < |vs| && vs[i].argValue == k;
      assert order[i] in dir && GetKey(dir[order[i]]) == k;
    }
    if HasFileFor(dir, order, k) {
      var i :| 0 <= i < |order| && order[i] in dir && GetKey(dir[order[i]]) == k;
      assert vs[i].argValue == k;
    }
  }

  /** What `create` builds from an empty grouping when every file can be read. */
  function Created(oldDir: map<string, Lines>, newDir: map<string, Lines>,
                   newOrder: seq<string>, oldOrder: seq<string>): Groups
    requires Readable(newDir, newOrder) && Readable(oldDir, oldOrder)
  {
    AddedOld(AddedNew(Empty(), Entries(newDir, newOrder, true)), Entries(oldDir, oldOrder, false))
  }

  /**
   * After `create`, the groups are exactly the argument tuples of the files
   * present only in the new version, and each group is opened by a new call
   * and holds only calls with its own arguments.
   */
  lemma CreatedSpec(oldDir: map<string, Lines>, newDir: map<string, Lines>,
                    newOrder: seq<string>, oldOrder: seq<string>)
    requires Readable(newDir, newOrder) && Readable(oldDir, oldOrder)
    ensures WellFormed(Created(oldDir, newDir, newOrder, oldOrder))
    ensures forall k :: k in Created(oldDir, newDir, newOrder, oldOrder).items <==> HasFileFor(newDir, newOrder, k)
  {
    var news := Entries(newDir, newOrder, true);
    var olds := Entries(oldDir, oldOrder, false);
    var d: Groups := Empty();
    AddedNewWellFormed(d, news);
    AddedOldWellFormed(AddedNew(d, news), olds);
    AddedNewKeys(d, news);
    AddedOldKeys(AddedNew(d, news), olds);
    forall k
      ensures HasCallFor(news, k) <==> HasFileFor(newDir, newOrder, k)
    {
      EntriesKey(newDir, newOrder, true, k);
    }
  }

  /** The reported groups: those holding two or more calls, in dictionary order. */
  function Changes(keys: seq<Lines>, items: map<Lines, seq<ArgReturnValue>>): (r: seq<(Lines, seq<ArgReturnValue>)>)
    requires forall i :: 0 <= i < |keys| ==> keys[i] in items
    ensures |r| <= |keys|
    ensures forall i :: 0 <= i < |r| ==> r[i].0 in keys && r[i].1 == items[r[i].0] && |r[i].1| >= 2
  {
    if keys == [] then []
    else
      var k := keys[|keys| - 1];
      var init := Changes(keys[..|keys| - 1], items);
      if |items[k]| >= 2 then init + [(k, items[k])] else init
  }

  /** Every group with two or more calls is reported. */
  lemma {:induction false} ChangesComplete(keys: seq<Lines>, items: map<Lines, seq<ArgReturnValue>>, j: nat)
    requires forall i :: 0 <= i < |keys| ==> keys[i] in items
    requires j < |keys| && |items[keys[j]]| >= 2
    ensures exists i :: 0 <= i < |Changes(keys, items)| && Changes(keys, items)[i].0 == keys[j]
  {
    var init := Changes(keys[..|keys| - 1], items);
    if j < |keys| - 1 {
      ChangesComplete(keys[..|keys| - 1], items, j);
      var i :| 0 <= i < |init| && init[i].0 == keys[j];
      assert Changes(keys, items)[i] == init[i];
    } else {
      assert Changes(keys, items)[|init|].0 == keys[j];
    }
  }

  class ChangeRepository {
    var project: string
    var oldVersion: string
    var newVersion: string
    var argReturnValues: Groups

    ghost predicate Valid()
      reads this
    {
      WellFormed(argReturnValues)
    }

    /** The fields of `__init__`, before `create` runs. */
    constructor(project: string, oldVersion: string, newVersion: string)
      ensures Valid()
      ensures this.project == project && this.oldVersion == oldVersion && this.newVersion == newVersion
      ensures argReturnValues == Empty()
    {
      this.project := project;
      this.oldVersion := oldVersion;
      this.newVersion := newVersion;
      argReturnValues := Empty();
    }

    method AddNew(v: ArgReturnValue)
      requires argReturnValues.Valid()
      modifies this
      ensures argReturnValues == WithNew(old(argReturnValues), v)
      ensures project == old(project) && oldVersion == old(oldVersion) && newVersion == old(newVersion)
    {
      if v.argValue in argReturnValues.items {
        argReturnValues := argReturnValues.Put(v.argValue, argReturnValues.items[v.argValue] + [v]);
      } else {
        argReturnValues := argReturnValues.Put(v.argValue, [v]);
      }
    }

    method AddOld(v: ArgReturnValue)
      requires argReturnValues.Valid()
      modifies this
      ensures argReturnValues == WithOld(old(argReturnValues), v)
      ensures project == old(project) && oldVersion == old(oldVersion) && newVersion == old(newVersion)
    {
      if v.argValue in argReturnValues.items {
        argReturnValues := argReturnValues.Put(v.argValue, argReturnValues.items[v.argValue] + [v]);
      }
    }

    /**
     * `create`, given each version's directory as a map from file name to
     * lines and the order in which the two difference sets are iterated.
     * `ok` is false where `get_value` raises on an empty file.
     */
    method Create(oldDir: map<string, Lines>, newDir: map<string, Lines>,
                  newOrder: seq<string>, oldOrder: seq<string>) returns (ok: bool)
      requires argReturnValues.Valid()
      requires Enumerates(newOrder, OnlyIn(oldDir.Keys, newDir.Keys).0)
      requires Enumerates(oldOrder, OnlyIn(oldDir.Keys, newDir.Keys).1)
      modifies this
      ensures ok <==> Readable(newDir, newOrder) && Readable(oldDir, oldOrder)
      ensures ok ==> argReturnValues == AddedOld(AddedNew(old(argReturnValues), Entries(newDir, newOrder, true)),
                                                 Entries(oldDir, oldOrder, false))
      ensures project == old(project) && oldVersion == old(oldVersion) && newVersion == old(newVersion)
    {
      ok := AddAllNew(newDir, newOrder);
      if ok {
        ok := AddAllOld(oldDir, oldOrder);
      }
    }

    /** The first loop of `create`: each file only in the new version, through `add_new`. */
    method AddAllNew(dir: map<string, Lines>, order: seq<string>) returns (ok: bool)
      requires argReturnValues.Valid()
      requires forall f :: f in order ==> f in dir
      modifies this
      ensures ok <==> Readable(dir, order)
      ensures ok ==> argReturnValues == AddedNew(old(argReturnValues), Entries(dir, order, true))
      ensures project == old(project) && oldVersion == old(oldVersion) && newVersion == old(newVersion)
    {
      ghost var start := argReturnValues;
      var i := 0;
      while i < |order|
        invariant 0 <= i <= |order|
        invariant Readable(dir, order[..i])
        invariant argReturnValues == AddedNew(start, Entries(dir, order[..i], true))
        invariant project == old(project) && oldVersion == old(oldVersion) && newVersion == old(newVersion)
      {
        var value := dir[order[i]];
        var returnValue := GetValue(value);
        if returnValue.None? {
          assert !Readable(dir, order) by { assert order[i] in dir && dir[order[i]] == []; }
          return false;
        }
        var v := ArgReturnValue(GetKey(value), returnValue.value, true);
        EntriesStep(dir, order, i, true);
        AddedNewStep(start, Entries(dir, order[..i], true), v);
        AddNew(v);
        i := i + 1;
      }
      assert order[..i] == order;
      return true;
    }

    /** The second loop of `create`: each file only in the old version, through `add_old`. */
    method AddAllOld(dir: map<string, Lines>, order: seq<string>) returns (ok: bool)
      requires argReturnValues.Valid()
      requires forall f :: f in order ==> f in dir
      modifies this
      ensures ok <==> Readable(dir, order)
      ensures ok ==> argReturnValues == AddedOld(old(argReturnValues), Entries(dir, order, false))
      ensures project == old(project) && oldVersion == old(oldVersion) && newVersion == old(newVersion)
    {
      ghost var start := argReturnValues;
      var i := 0;
      while i < |order|
        invariant 0 <= i <= |order|
        invariant Readable(dir, order[..i])
        invariant argReturnValues == AddedOld(start, Entries(dir, order[..i], false))
        invariant project == old(project) && oldVersion == old(oldVersion) && newVersion == old(newVersion)
      {
        var value := dir[order[i]];
        var returnValue := GetValue(value);
        if returnValue.None? {
          assert !Readable(dir, order) by { assert order[i] in dir && dir[order[i]] == []; }
          return false;
        }
        var v := ArgReturnValue(GetKey(value), returnValue.value, false);
        EntriesStep(dir, order, i, false);
        AddedOldStep(start, Entries(dir, order[..i], false), v);
        AddOld(v);
        i := i + 1;
      }
      assert order[..i] == order;
      return true;
    }

    /** `find_changes`: the groups it prints, each with its calls. */
    method FindChanges() returns (changes: seq<(Lines, seq<ArgReturnValue>)>)
      requires argReturnValues.Valid()
      ensures changes == Changes(argReturnValues.keys, argReturnValues.items)
    {
      changes := [];
      var i := 0;
      while i < |argReturnValues.keys|
        invariant 0 <= i <= |argReturnValues.keys|
        invariant changes == Changes(argReturnValues.keys[..i], argReturnValues.items)
      {
        var argValue := argReturnValues.keys[i];
        var returnValue := argReturnValues.items[argValue];
        assert argReturnValues.keys[..i + 1][..i] == argReturnValues.keys[..i];
        if |returnValue| >= 2 {
          changes := changes + [(argValue, returnValue)];
        }
        i := i + 1;
      }
      assert argReturnValues.keys[..i] == argReturnValues.keys;
    }
  }

  /**
   * `ChangeRepository(project, old_version, new_version)`: the fields, then
   * `create`; `None` where the constructor raises.
   */
  method NewRepository(project: string, oldVersion: string, newVersion: string,
                       oldDir: map<string, Lines>, newDir: map<string, Lines>,
                       newOrder: seq<string>, oldOrder: seq<string>) returns (repo: Option<ChangeRepository>)
    requires Enumerates(newOrder, OnlyIn(oldDir.Keys, newDir.Keys).0)
    requires Enumerates(oldOrder, OnlyIn(oldDir.Keys, newDir.Keys).1)
    ensures repo.Some? <==> Readable(newDir, newOrder) && Readable(oldDir, oldOrder)
    ensures repo.Some? ==>
      (fresh(repo.value) && repo.value.Valid()
       && repo.value.argReturnValues == Created(oldDir, newDir, newOrder, oldOrder))
  {
    var r := new ChangeRepository(project, oldVersion, newVersion);
    var ok := r.Create(oldDir, newDir, newOrder, oldOrder);
    if ok {
      CreatedSpec(oldDir, newDir, newOrder, oldOrder);
      repo := Some(r);
    } else {
      repo := None;
    }
  }
}
