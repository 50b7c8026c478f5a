/** Duplicate pointers over the anime list: the migration that builds them, the pass that rebuilds
    them after a save, and the repair after a delete. Letters are ASCII. */
module DuplicateForest {
  import opened Ordering
  import opened PyText
  import opened Wrappers

  datatype Row = Row(name: Option<string>, enabled: bool, duplicateOf: Option<int>)

  type Table = map<int, Row>

  /** SQL's `trim()` takes spaces only, Python's `strip()` any white space. */
  function Trim(s: string): string { StripRight(StripLeft(s, {' '}), {' '}) }

  function Lower(s: string): string {
    seq(|s|, i requires 0 <= i < |s| => if 'A' <= s[i] <= 'Z' then s[i] - 'A' + 'a' else s[i])
  }

  /** The normalised name of a row that the migration's query selects. */
  function Group(row: Row): Option<string> {
    if row.name.Some? && Trim(row.name.value) != "" then Some(Lower(Strip(row.name.value))) else None
  }

  /** Rows the pass after a save looks at: a name of whitespace only is none. */
  function NamedGroup(row: Row): Option<string> {
    if row.name.Some? && Strip(row.name.value) != "" then Some(Lower(Strip(row.name.value))) else None
  }

  predicate SameLetter(c: char, d: char) {
    c == d || ('A' <= c <= 'Z' && d == c + ' ') || ('A' <= d <= 'Z' && c == d + ' ')
  }

  predicate SameLetters(a: string, b: string) { |a| == |b| && forall i :: 0 <= i < |a| ==> SameLetter(a[i], b[i]) }

  lemma LowerIs(a: string, b: string)
    ensures Lower(a) == Lower(b) <==> SameLetters(a, b)
  {
    assert |Lower(a)| == |a| && |Lower(b)| == |b|;
    if SameLetters(a, b) {
      assert forall i :: 0 <= i < |a| ==> Lower(a)[i] == Lower(b)[i];
    } else if |a| == |b| {
      var i :| 0 <= i < |a| && !SameLetter(a[i], b[i]);
      assert Lower(a)[i] != Lower(b)[i];
    }
  }

  /** Two rows are of one group when their names, white space around them aside, differ in the case of
      letters alone; the migration skips names of spaces only, the pass after a save names of any white space. */
  lemma SameGroupIff(a: Row, b: Row)
    ensures Group(a).Some? <==> a.name.Some? && exists c :: c in a.name.value && c != ' '
    ensures NamedGroup(a).Some? <==> a.name.Some? && exists c :: c in a.name.value && c !in WHITESPACE
    ensures Group(a).Some? && Group(b).Some? ==>
      (Group(a) == Group(b) <==> SameLetters(Strip(a.name.value), Strip(b.name.value)))
    ensures NamedGroup(a).Some? ==> NamedGroup(a) == Group(a)
  {
    if a.name.Some? {
      AllStripped(a.name.value, WHITESPACE);
      AllStripped(a.name.value, {' '});
      if b.name.Some? {
        LowerIs(Strip(a.name.value), Strip(b.name.value));
      }
    }
  }

  function Members(t: Table, key: string): set<int> {
    set id | id in t && Group(t[id]) == Some(key)
  }

  function Selected(t: Table): set<int> {
    set id | id in t && Group(t[id]).Some?
  }

  function Named(t: Table): set<int> {
    set id | id in t && NamedGroup(t[id]).Some?
  }

  /** The least id that shares the group of row `id`. */
  ghost predicate IsSource(t: Table, source: int, id: int) {
    id in t && Group(t[id]).Some? && IsLeast(Members(t, Group(t[id]).value), source)
  }

  /** Row `id` has the pointer its name calls for: none at the head of its group or without a
      name, else the head of its group, and then it is disabled. */
  ghost predicate CanonicalAt(t: Table, id: int)
    requires id in t
  {
    match t[id].duplicateOf
    case None => Group(t[id]).None? || IsSource(t, id, id)
    case Some(source) => source != id && IsSource(t, source, id) && !t[id].enabled
  }

  ghost predicate Canonical(t: Table) {
    forall id :: id in t ==> CanonicalAt(t, id)
  }

  // ------------------------------------------------------------------ the depth-one forest

  ghost predicate Forest(t: Table) {
    forall id :: id in t && t[id].duplicateOf.Some? ==>
      var source := t[id].duplicateOf.value;
      && source in t && source < id && t[source].duplicateOf.None?
      && Group(t[id]).Some? && Group(t[source]) == Group(t[id])
      && !t[id].enabled
  }

  ghost predicate OneRootPerName(t: Table) {
    forall a, b :: a in t && b in t && Root(t, a) && Root(t, b) && Group(t[a]) == Group(t[b]) ==> a == b
  }

  predicate Root(t: Table, id: int)
    requires id in t
  {
    t[id].duplicateOf.None? && Group(t[id]).Some?
  }

  /** Canonical pointers are exactly a forest of depth one with live lower targets of the same
      name, disabled duplicates, and one root a name. */
  lemma CanonicalIffForest(t: Table)
    ensures Canonical(t) <==> Forest(t) && OneRootPerName(t)
  {
    if Canonical(t) {
      forall id | id in t && t[id].duplicateOf.Some?
        ensures var source := t[id].duplicateOf.value;
          source in t && source < id && t[source].duplicateOf.None? && Group(t[source]) == Group(t[id])
      {
        assert CanonicalAt(t, id);
        var source := t[id].duplicateOf.value;
        assert id in Members(t, Group(t[id]).value) && source in Members(t, Group(t[id]).value);
        assert CanonicalAt(t, source);
      }
      forall a, b | a in t && b in t && Root(t, a) && Root(t, b) && Group(t[a]) == Group(t[b]) ensures a == b {
        assert CanonicalAt(t, a) && CanonicalAt(t, b);
        assert a in Members(t, Group(t[b]).value) && b in Members(t, Group(t[a]).value);
      }
    }
    if Forest(t) && OneRootPerName(t) {
      forall id | id in t ensures CanonicalAt(t, id) {
        ForestIsCanonicalAt(t, id);
      }
    }
  }

  /** The root a row belongs to in a forest. */
  function RootOf(t: Table, id: int): int
    requires id in t
  {
    if t[id].duplicateOf.Some? then t[id].duplicateOf.value else id
  }

  lemma ForestIsCanonicalAt(t: Table, id: int)
    requires Forest(t) && OneRootPerName(t) && id in t
    ensures CanonicalAt(t, id)
  {
    if Group(t[id]).Some? {
      var members := Members(t, Group(t[id]).value);
      forall m | m in members ensures RootOf(t, id) <= m {
        assert Root(t, RootOf(t, m)) && Root(t, RootOf(t, id));
        assert RootOf(t, m) == RootOf(t, id);
      }
      assert IsLeast(members, RootOf(t, id));
    }
  }

  // ------------------------------------------------------------------ what each operation does

  /** A row brought in line with the head of its group. */
  function Linked(row: Row, id: int, source: int): Row {
    if source == id then row.(duplicateOf := None) else row.(duplicateOf := Some(source), enabled := false)
  }

  ghost predicate SameNames(t: Table, t': Table) {
    t'.Keys == t.Keys && forall id :: id in t ==> t'[id].name == t[id].name
  }

  lemma SameNamesSameMembers(t: Table, t': Table, key: string)
    requires SameNames(t, t')
    ensures Members(t', key) == Members(t, key)
  {
    assert forall id :: id in t ==> Group(t'[id]) == Group(t[id]);
  }

  /** Rows that point where the `source` of their group is, others as before. */
  ghost predicate LinkedUp(t: Table, t': Table, ids: set<int>) {
    && SameNames(t, t')
    && (forall id :: id in t && id !in ids ==> t'[id] == t[id])
    && (forall id :: id in ids ==> id in t && LinkedAt(t, t', id))
  }

  ghost predicate LinkedAt(t: Table, t': Table, id: int)
    requires id in t && id in t'
  {
    IsSource(t, RootOf(t', id), id) && t'[id] == Linked(t[id], id, RootOf(t', id))
  }

  lemma LinkedUpIsCanonical(t: Table, t': Table, ids: set<int>)
    requires LinkedUp(t, t', ids)
    ensures forall id :: id in ids ==> CanonicalAt(t', id)
    ensures forall id :: id in t && id !in ids ==> CanonicalAt(t', id) == CanonicalAt(t, id)
  {
    forall id, source | id in t && Group(t[id]).Some? ensures IsSource(t', source, id) == IsSource(t, source, id) {
      SameNamesSameMembers(t, t', Group(t[id]).value);
    }
    forall id | id in ids ensures CanonicalAt(t', id) {
      assert LinkedAt(t, t', id);
    }
  }

  /** Relinks after the delete of `gone`: the least row that pointed at it becomes a root. */
  ghost predicate Repaired(t: Table, t': Table, gone: int) {
    && SameNames(t, t')
    && (forall id :: id in t && id !in Pointing(t, gone) ==> t'[id] == t[id])
    && (Pointing(t, gone) != {} ==>
         exists first :: IsLeast(Pointing(t, gone), first) && RelinkedTo(t, t', gone, first))
  }

  ghost predicate RelinkedTo(t: Table, t': Table, gone: int, first: int)
    requires t'.Keys == t.Keys
  {
    forall id :: id in Pointing(t, gone) ==> t'[id] == t[id].(duplicateOf := if id == first then None else Some(first))
  }

  ghost predicate RelinkedSoFar(t: Table, t': Table, ids: set<int>, first: int) {
    && SameNames(t, t')
    && (forall id :: id in t && id !in ids ==> t'[id] == t[id])
    && forall id :: id in ids ==> id in t && t'[id] == t[id].(duplicateOf := if id == first then None else Some(first))
  }

  function Pointing(t: Table, source: int): set<int> {
    set id | id in t && t[id].duplicateOf == Some(source)
  }

  class AnimeListRepository {
    var rows: Table

    constructor (rows: Table)
      ensures this.rows == rows
    {
      this.rows := rows;
    }

    /** The data step of migration 0010, right after the pointer column was added. */
    method Upgrade()
      requires forall id :: id in rows ==> rows[id].duplicateOf.None?
      modifies this
      ensures LinkedUp(old(rows), rows, Selected(old(rows)))
    {
      var before := rows;
      var order := Sorted(Selected(before));
      TakenAll(Selected(before), order);
      var seen: map<string, int> := map[];
      for i := 0 to |order|
        invariant LinkedUp(before, rows, Taken(order, i))
        invariant SeenIsLeast(before, Taken(order, i), seen)
      {
        TakeOne(Selected(before), order, i);
        seen := UpgradeRow(before, order[i], Taken(order, i), seen);
      }
    }

    method UpgradeRow(fetched: Table, id: int, ghost met: set<int>, seen: map<string, int>)
      returns (seen': map<string, int>)
      requires LinkedUp(fetched, rows, met) && SeenIsLeast(fetched, met, seen)
      requires id in Selected(fetched) && fetched[id].duplicateOf.None?
      requires id !in met && forall m :: m in Selected(fetched) && m < id ==> m in met
      modifies this
      ensures LinkedUp(fetched, rows, met + {id}) && SeenIsLeast(fetched, met + {id}, seen')
    {
      SeenNext(fetched, met, id, seen);
      ghost var linked := rows;
      assert rows[id] == fetched[id];
      var key := Lower(Strip(fetched[id].name.value));
      if key !in seen {
        seen' := seen[key := id];
        LinkOne(fetched, linked, met, id, id, rows);
      } else {
        seen' := seen;
        rows := rows[id := rows[id].(duplicateOf := Some(seen[key]), enabled := false)];
        LinkOne(fetched, linked, met, id, seen[key], rows);
      }
    }

    /** `find_duplicate_source`: the least id whose name matches in SQL's terms. */
    method FindDuplicateSource(name: string, excludeId: Option<int>) returns (found: Option<int>)
      ensures found.Some? ==> SqlMatch(rows, name, excludeId, found.value)
      ensures found.Some? ==> forall id :: SqlMatch(rows, name, excludeId, id) ==> found.value <= id
      ensures found.None? ==> forall id :: !SqlMatch(rows, name, excludeId, id)
    {
      var normalised := Lower(Strip(name));
      if normalised == "" {
        return None;
      }
      var matches := set id | id in rows && rows[id].name.Some? && Lower(Trim(rows[id].name.value)) == normalised;
      var order := Sorted(matches);
      TakenAll(matches, order);
      for i := 0 to |order|
        invariant forall id :: id in Taken(order, i) ==> Some(id) == excludeId
      {
        TakeOne(matches, order, i);
        if Some(order[i]) != excludeId {
          return Some(order[i]);
        }
      }
      found := None;
    }

    method Delete(id: int)
      modifies this
      ensures rows == old(rows) - {id}
    {
      rows := rows - {id};
    }

    /** `reevaluate_duplicates_after_delete`; `deletedId` is missing for a row never stored. */
    method ReevaluateDuplicatesAfterDelete(deletedId: Option<int>) returns (modified: seq<int>)
      modifies this
      ensures deletedId.None? ==> modified == [] && rows == old(rows)
      ensures deletedId.Some? ==>
        Ascending(Pointing(old(rows), deletedId.value), modified) && Repaired(old(rows), rows, deletedId.value)
    {
      modified := [];
      if deletedId.None? {
        return;
      }
      ghost var before := rows;
      ghost var pointing := Pointing(rows, deletedId.value);
      var affected := Sorted(Pointing(rows, deletedId.value));
      TakenAll(pointing, affected);
      if affected == [] {
        return;
      }
      var newFirst := affected[0];
      TakeOne(pointing, affected, 0);
      rows := rows[newFirst := rows[newFirst].(duplicateOf := None)];
      for i := 1 to |affected|
        invariant RelinkedSoFar(before, rows, Taken(affected, i), newFirst)
      {
        TakeOne(pointing, affected, i);
        assert newFirst in Taken(affected, 1) && affected[i] != newFirst;
        rows := rows[affected[i] := rows[affected[i]].(duplicateOf := Some(newFirst))];
      }
      assert RelinkedTo(before, rows, deletedId.value, newFirst);
      modified := affected;
    }

    /** `_apply_duplicate_flags`, the pass after every save, over the rows in any order. */
    method ApplyDuplicateFlags()
      modifies this
      ensures LinkedUp(old(rows), rows, Named(old(rows)))
    {
      ghost var before := rows;
      var keys := set id | id in rows && NamedGroup(rows[id]).Some? :: NamedGroup(rows[id]).value;
      ghost var done: set<int> := {};
      while keys != {}
        invariant LinkedUp(before, rows, done) && done <= Named(before)
        invariant forall id :: id in Named(before) ==> (id in done <==> NamedGroup(before[id]).value !in keys)
        invariant "" !in keys
        decreases keys
      {
        var key :| key in keys;
        var group := NamedLike(rows, key);
        NamedMembers(before, rows, key);
        assert group !! done by {
          forall id | id in group ensures id !in done {
            assert id in Named(before);
          }
        }
        LinkGroup(group, key, before, done);
        keys, done := keys - {key}, done + group;
      }
      assert done == Named(before) by {
        assert forall id :: id in Named(before) ==> id in done;
      }
    }

    method LinkGroup(group: set<int>, key: string, ghost before: Table, ghost done: set<int>)
      requires group == Members(before, key) && group !! done && LinkedUp(before, rows, done)
      modifies this
      ensures LinkedUp(before, rows, done + group)
    {
      var order := Sorted(group);
      TakenAll(group, order);
      for i := 0 to |order|
        invariant LinkedUp(before, rows, done + Taken(order, i))
      {
        TakeOne(group, order, i);
        ghost var linked, id := rows, order[i];
        assert IsSource(before, order[0], id);
        if i == 0 {
          rows := rows[order[i] := rows[order[i]].(duplicateOf := None)];
        } else {
          rows := rows[order[i] := rows[order[i]].(duplicateOf := Some(order[0]), enabled := false)];
        }
        LinkOne(before, linked, done + Taken(order, i), id, order[0], rows);
        assert done + Taken(order, i) + {id} == done + Taken(order, i + 1);
      }
    }
  }

  lemma LinkOne(t: Table, t': Table, ids: set<int>, id: int, source: int, t'': Table)
    requires LinkedUp(t, t', ids) && id in t && id !in ids && IsSource(t, source, id)
    requires t''.Keys == t'.Keys && t''[id] == Linked(t'[id], id, source)
    requires forall other :: other in t' && other != id ==> t''[other] == t'[other]
    ensures LinkedUp(t, t'', ids + {id})
  {
    forall other | other in ids ensures LinkedAt(t, t'', other) {
      assert LinkedAt(t, t', other);
    }
    assert LinkedAt(t, t'', id);
  }

  predicate SqlMatch(t: Table, name: string, excludeId: Option<int>, id: int) {
    && Lower(Strip(name)) != "" && id in t && t[id].name.Some? && Some(id) != excludeId
    && Lower(Trim(t[id].name.value)) == Lower(Strip(name))
  }

  /** Spaces around the stored name do not count, nor any white space around the one asked for. */
  lemma SqlMatchIff(t: Table, name: string, id: int)
    requires id in t
    ensures SqlMatch(t, name, None, id) <==>
      && (exists c :: c in name && c !in WHITESPACE)
      && t[id].name.Some? && SameLetters(Trim(t[id].name.value), Strip(name))
  {
    AllStripped(name, WHITESPACE);
    if t[id].name.Some? {
      LowerIs(Trim(t[id].name.value), Strip(name));
    }
  }

  /** A stored name has nothing but spaces around it. */
  predicate SpacesOnly(row: Row) { row.name.Some? ==> Trim(row.name.value) == Strip(row.name.value) }

  /** In a forest whose names have nothing but spaces around them the search finds the root of the name,
      and nothing exactly when no row has it. */
  lemma FindsTheRoot(t: Table, name: string, found: Option<int>)
    requires Canonical(t) && forall id :: id in t ==> SpacesOnly(t[id])
    requires found.Some? ==> SqlMatch(t, name, None, found.value)
    requires found.Some? ==> forall id :: SqlMatch(t, name, None, id) ==> found.value <= id
    requires found.None? ==> forall id :: !SqlMatch(t, name, None, id)
    ensures found.Some? ==> Root(t, found.value) && Group(t[found.value]) == Some(Lower(Strip(name)))
    ensures found.None? <==> Lower(Strip(name)) == "" || Members(t, Lower(Strip(name))) == {}
  {
    var key := Lower(Strip(name));
    forall id | id in t && key != "" ensures SqlMatch(t, name, None, id) <==> id in Members(t, key) {
      assert SpacesOnly(t[id]);
    }
    if found.Some? {
      assert CanonicalAt(t, found.value);
      assert found.value in Members(t, key);
      assert IsSource(t, found.value, found.value);
    } else if key != "" {
      assert forall id :: id !in Members(t, key);
    }
  }

  /** `seen` maps each name met so far to the least row that has it. */
  ghost predicate SeenIsLeast(t: Table, met: set<int>, seen: map<string, int>) {
    && (forall id :: id in met ==> id in t && Group(t[id]).Some? && Group(t[id]).value in seen)
    && (forall key :: key in seen ==> seen[key] in met && IsLeast(Members(t, key), seen[key]))
  }

  lemma SeenNext(t: Table, met: set<int>, id: int, seen: map<string, int>)
    requires SeenIsLeast(t, met, seen) && id in Selected(t) && id !in met
    requires forall m :: m in Selected(t) && m < id ==> m in met
    ensures id in t && Group(t[id]).Some?
    ensures var key := Group(t[id]).value;
      if key in seen then IsSource(t, seen[key], id) && seen[key] != id && SeenIsLeast(t, met + {id}, seen)
      else IsSource(t, id, id) && SeenIsLeast(t, met + {id}, seen[key := id])
  {
    var key := Group(t[id]).value;
    if key !in seen {
      forall m | m in Members(t, key) ensures id <= m {
        assert m in Selected(t);
      }
      assert IsLeast(Members(t, key), id);
    }
  }

  function NamedLike(t: Table, key: string): set<int> {
    set id | id in t && NamedGroup(t[id]) == Some(key)
  }

  lemma NamedMembers(t: Table, t': Table, key: string)
    requires SameNames(t, t') && key != ""
    ensures NamedLike(t', key) == Members(t, key) && NamedLike(t', key) <= Named(t)
  {
    forall id | id in t ensures id in NamedLike(t', key) <==> id in Members(t, key) {
      assert NamedGroup(t'[id]) == NamedGroup(t[id]);
      if t[id].name.Some? {
        AllStripped(t[id].name.value, WHITESPACE);
        AllStripped(t[id].name.value, {' '});
      }
    }
    forall id | id in NamedLike(t', key) ensures id in Named(t) {
      assert NamedGroup(t'[id]) == NamedGroup(t[id]);
    }
  }

  // ------------------------------------------------------------------ what they keep

  /** Linking disables the duplicates and no other row; the repair switches none on or off. */
  lemma SwitchesOf(t: Table, t': Table, ids: set<int>, gone: int)
    ensures LinkedUp(t, t', ids) ==>
      forall id :: id in ids ==> t'[id].enabled == (t[id].enabled && t'[id].duplicateOf.None?)
    ensures Repaired(t, t', gone) ==> forall id :: id in t ==> t'[id].enabled == t[id].enabled
  {
    if LinkedUp(t, t', ids) {
      assert forall id :: id in ids ==> LinkedAt(t, t', id);
    }
    if Repaired(t, t', gone) && Pointing(t, gone) != {} {
      var first :| IsLeast(Pointing(t, gone), first) && RelinkedTo(t, t', gone, first);
    }
  }

  /** The migration leaves a forest in which the least id of every name is the only root. */
  lemma UpgradeIsCanonical(t: Table, t': Table)
    requires forall id :: id in t ==> t[id].duplicateOf.None?
    requires LinkedUp(t, t', Selected(t))
    ensures Canonical(t')
  {
    LinkedUpIsCanonical(t, t', Selected(t));
  }

  /** Deleting any row of a forest, root or not, and repairing leaves a forest again. */
  lemma DeleteAndRepairIsCanonical(t: Table, gone: int, t': Table)
    requires Canonical(t) && Repaired(t - {gone}, t', gone)
    ensures Canonical(t')
  {
    forall id | id in t' ensures CanonicalAt(t', id) {
      CanonicalAfterDelete(t, gone, t', id);
    }
  }

  lemma CanonicalAfterDelete(t: Table, gone: int, t': Table, id: int)
    requires Canonical(t) && Repaired(t - {gone}, t', gone) && id in t'
    ensures CanonicalAt(t', id)
  {
    assert CanonicalAt(t, id);
    if Group(t[id]).Some? {
      var key := Group(t[id]).value;
      var rest := t - {gone};
      SameNamesSameMembers(rest, t', key);
      assert Members(rest, key) == Members(t, key) - {gone};
      assert forall m :: m in Members(t, key) ==> CanonicalAt(t, m);
      if gone in t && IsSource(t, gone, id) {
        assert Pointing(rest, gone) == Members(rest, key) by {
          forall m | m in Pointing(rest, gone) ensures m in Members(rest, key) {
            assert CanonicalAt(t, m);
          }
          forall m | m in Members(rest, key) ensures m in Pointing(rest, gone) {
            assert CanonicalAt(t, m);
          }
        }
        assert id in Pointing(rest, gone);
        var first :| IsLeast(Pointing(rest, gone), first) && RelinkedTo(rest, t', gone, first);
      } else {
        assert id !in Pointing(rest, gone);
      }
    }
  }

  /** Without the repair the pointers stay right exactly when nothing pointed at the deleted row. */
  lemma RepairNeededIff(t: Table, gone: int)
    requires Canonical(t)
    ensures Canonical(t - {gone}) <==> Pointing(t - {gone}, gone) == {}
  {
    var rest := t - {gone};
    if Pointing(rest, gone) == {} {
      assert Repaired(rest, rest, gone);
      DeleteAndRepairIsCanonical(t, gone, rest);
    } else {
      HasElement(Pointing(rest, gone));
      var id :| id in Pointing(rest, gone);
      assert !CanonicalAt(rest, id);
    }
  }

  /** Any number of deletes, each followed by its repair. */
  lemma {:induction false} AnyDeletesKeepForest(tables: seq<Table>, gone: seq<int>)
    requires |tables| == |gone| + 1 && Canonical(tables[0])
    requires forall k :: 0 <= k < |gone| ==> Repaired(tables[k] - {gone[k]}, tables[k + 1], gone[k])
    ensures Forest(tables[|gone|]) && OneRootPerName(tables[|gone|]) && Canonical(tables[|gone|])
  {
    if gone != [] {
      var n := |gone| - 1;
      AnyDeletesKeepForest(tables[..n + 1], gone[..n]);
      DeleteAndRepairIsCanonical(tables[n], gone[n], tables[n + 1]);
    }
    CanonicalIffForest(tables[|gone|]);
  }

  /** The pass after a save makes any table a forest, whatever pointers it held, exactly when the
      rows it does not look at were in order already. */
  lemma ApplyIsCanonicalIff(t: Table, t': Table)
    requires LinkedUp(t, t', Named(t))
    ensures Canonical(t') <==> forall id :: id in t && NamedGroup(t[id]).None? ==> CanonicalAt(t, id)
  {
    LinkedUpIsCanonical(t, t', Named(t));
  }
}
