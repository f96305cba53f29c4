// The list of known rigs that all server connections of a client share
// (src/trx-client/src/remote_client.rs:901-977), under refreshes in any order.
module RigMerge {
  import opened Basics
  import opened RigMapping

  datatype Known = Known(rigId: Name, displayName: Option<string>, state: State, audioPort: Option<nat>)

  function FromSnapshot(key: Name, entry: RigEntry): Known {
    Known(key, entry.displayName, entry.state, entry.audioPort)
  }

  predicate SameEntry(a: Known, b: Known) {
    a.rigId == b.rigId && a.displayName == b.displayName && a.state.initialized == b.state.initialized
    && a.audioPort == b.audioPort
  }

  predicate SameList(a: seq<Known>, b: seq<Known>) {
    |a| == |b| && forall i :: 0 <= i < |a| ==> SameEntry(a[i], b[i])
  }

  // ---- what a merge means ------------------------------------------------------------------

  // The mapped rig of a name.
  function Lookup(mapped: seq<Pair>, name: Name): Option<RigEntry> {
    if mapped == [] then None
    else if mapped[|mapped| - 1].name == name then Some(mapped[|mapped| - 1].rig)
    else Lookup(mapped[..|mapped| - 1], name)
  }

  // Entries of other servers stay; own ones are renewed, or go.
  function Renewed(current: seq<Known>, owned: set<Name>, mapped: seq<Pair>): seq<Known> {
    if current == [] then []
    else
      var before, e := current[..|current| - 1], current[|current| - 1];
      var rest := Renewed(before, owned, mapped);
      if e.rigId !in owned then rest + [e]
      else if Lookup(mapped, e.rigId).Some? then rest + [FromSnapshot(e.rigId, Lookup(mapped, e.rigId).value)]
      else rest
  }

  // The own names that were in the list and still are.
  function Inserted(current: seq<Known>, owned: set<Name>, mapped: seq<Pair>): set<Name> {
    set e | e in current && e.rigId in owned && Lookup(mapped, e.rigId).Some? :: e.rigId
  }

  function Fresh(mapped: seq<Pair>, inserted: set<Name>): seq<Known> {
    if mapped == [] then []
    else
      var p := mapped[|mapped| - 1];
      Fresh(mapped[..|mapped| - 1], inserted) + if p.name in inserted then [] else [FromSnapshot(p.name, p.rig)]
  }

  function Merged(current: seq<Known>, owned: set<Name>, mapped: seq<Pair>): seq<Known> {
    Renewed(current, owned, mapped) + Fresh(mapped, Inserted(current, owned, mapped))
  }

  method MergeKnownRigs(names: Names, current: seq<Known>, mapped: seq<Pair>) returns (merged: seq<Known>)
    ensures merged == Merged(current, names.Values, mapped)
  {
    hide Renewed, Fresh, Inserted, Lookup;
    EmptyParts(names.Values, mapped);
    var ownedKeys := names.Values;
    var mappedByKey := ByKey(mapped);
    merged := [];
    var inserted: set<Name> := {};
    var i := 0;
    while i < |current|
      invariant 0 <= i <= |current|
      invariant merged == Renewed(current[..i], ownedKeys, mapped)
      invariant inserted == Inserted(current[..i], ownedKeys, mapped)
    {
      var existing := current[i];
      RenewedSnoc(current, i, ownedKeys, mapped);
      if existing.rigId in ownedKeys {
        if existing.rigId in mappedByKey {
          merged := merged + [FromSnapshot(existing.rigId, mappedByKey[existing.rigId])];
          inserted := inserted + {existing.rigId};
        }
      } else {
        merged := merged + [existing];
      }
      i := i + 1;
    }
    assert current[..|current|] == current;
    ghost var renewed := merged;
    i := 0;
    FreshOfNone(mapped, inserted);
    assert renewed + [] == renewed;
    while i < |mapped|
      invariant 0 <= i <= |mapped|
      invariant merged == renewed + Fresh(mapped[..i], inserted)
    {
      FreshSnoc(mapped, i, inserted);
      if mapped[i].name !in inserted {
        merged := merged + [FromSnapshot(mapped[i].name, mapped[i].rig)];
      }
      i := i + 1;
    }
    assert mapped[..|mapped|] == mapped;
  }

  lemma EmptyParts(owned: set<Name>, mapped: seq<Pair>)
    ensures Renewed([], owned, mapped) == [] && Inserted([], owned, mapped) == {}
  {
  }

  lemma FreshOfNone(mapped: seq<Pair>, inserted: set<Name>)
    ensures Fresh(mapped[..0], inserted) == []
  {
  }

  method ByKey(mapped: seq<Pair>) returns (m: map<Name, RigEntry>)
    ensures forall k :: k in m <==> Lookup(mapped, k).Some?
    ensures forall k :: k in m ==> Lookup(mapped, k) == Some(m[k])
  {
    m := map[];
    var i := 0;
    while i < |mapped|
      invariant 0 <= i <= |mapped|
      invariant forall k :: k in m <==> Lookup(mapped[..i], k).Some?
      invariant forall k :: k in m ==> Lookup(mapped[..i], k) == Some(m[k])
    {
      assert mapped[..i + 1][..i] == mapped[..i] && mapped[..i + 1][i] == mapped[i];
      m := m[mapped[i].name := mapped[i].rig];
      i := i + 1;
    }
    assert mapped[..|mapped|] == mapped;
  }

  lemma RenewedSnoc(current: seq<Known>, i: nat, owned: set<Name>, mapped: seq<Pair>)
    requires i < |current|
    ensures var e := current[i];
            var rest := Renewed(current[..i], owned, mapped);
            && Renewed(current[..i + 1], owned, mapped)
               == (if e.rigId !in owned then rest + [e]
                   else if Lookup(mapped, e.rigId).Some? then
                     rest + [FromSnapshot(e.rigId, Lookup(mapped, e.rigId).value)]
                   else rest)
            && Inserted(current[..i + 1], owned, mapped)
               == Inserted(current[..i], owned, mapped)
                  + if e.rigId in owned && Lookup(mapped, e.rigId).Some? then {e.rigId} else {}
  {
    assert current[..i + 1][..i] == current[..i];
    assert current[..i + 1] == current[..i] + [current[i]];
  }

  lemma FreshSnoc(mapped: seq<Pair>, i: nat, inserted: set<Name>)
    requires i < |mapped|
    ensures Fresh(mapped[..i + 1], inserted)
            == if mapped[i].name in inserted then Fresh(mapped[..i], inserted)
               else Fresh(mapped[..i], inserted) + [FromSnapshot(mapped[i].name, mapped[i].rig)]
  {
    assert mapped[..i + 1][..i] == mapped[..i];
    assert Fresh(mapped[..i], inserted) + [] == Fresh(mapped[..i], inserted);
  }

  class KnownRigs {
    var rigs: seq<Known>

    constructor ()
      ensures rigs == []
    {
      rigs := [];
    }

    // The list is kept as it is when the new one differs in nothing but details of states.
    method CacheRemoteRigs(names: Names, mapped: seq<Pair>)
      modifies this
      ensures rigs == Cached(old(rigs), names, mapped)
    {
      var next: seq<Known>;
      if names != map[] {
        next := MergeKnownRigs(names, rigs, mapped);
      } else {
        next := Snapshots(mapped);
      }
      var same := |rigs| == |next|;
      var i := 0;
      while same && i < |rigs|
        invariant 0 <= i <= |rigs|
        invariant same ==> |rigs| == |next| && forall k :: 0 <= k < i ==> SameEntry(rigs[k], next[k])
        invariant !same ==> !SameList(rigs, next)
      {
        same := SameEntry(rigs[i], next[i]);
        i := i + 1;
      }
      if same {
        return;
      }
      rigs := next;
    }
  }

  method Snapshots(mapped: seq<Pair>) returns (list: seq<Known>)
    ensures list == Fresh(mapped, {})
  {
    list := [];
    var i := 0;
    while i < |mapped|
      invariant 0 <= i <= |mapped|
      invariant list == Fresh(mapped[..i], {})
    {
      FreshSnoc(mapped, i, {});
      list := list + [FromSnapshot(mapped[i].name, mapped[i].rig)];
      i := i + 1;
    }
    assert mapped[..|mapped|] == mapped;
  }

  // A connection without names has the list to itself.
  function Next(current: seq<Known>, names: Names, mapped: seq<Pair>): seq<Known> {
    if HasShortNames(names) then Merged(current, names.Values, mapped) else Fresh(mapped, {})
  }

  function Cached(current: seq<Known>, names: Names, mapped: seq<Pair>): seq<Known> {
    if SameList(current, Next(current, names, mapped)) then current else Next(current, names, mapped)
  }

  // ---- what every refresh keeps -----------------------------------------------------------------

  ghost predicate NoDuplicates(list: seq<Known>) {
    forall i, j :: 0 <= i < j < |list| ==> list[i].rigId != list[j].rigId
  }

  function Foreign(list: seq<Known>, names: Names): seq<Known> {
    if list == [] then []
    else Foreign(list[..|list| - 1], names) + if Owns(names, list[|list| - 1].rigId) then [] else [list[|list| - 1]]
  }

  // The names a connection is responsible for.
  predicate Owns(names: Names, name: Name) {
    !HasShortNames(names) || name in names.Values
  }

  ghost predicate Own(mapped: seq<Pair>, names: Names) {
    DistinctNames(mapped) && forall i :: 0 <= i < |mapped| ==> Owns(names, mapped[i].name)
  }

  ghost predicate Listed(list: seq<Known>, name: Name) {
    exists i :: 0 <= i < |list| && list[i].rigId == name
  }

  lemma {:induction false} LookupIs(mapped: seq<Pair>, name: Name)
    ensures Lookup(mapped, name).Some? <==> HasName(mapped, name)
    ensures Lookup(mapped, name).Some? ==> Pair(name, Lookup(mapped, name).value) in mapped
  {
    if mapped == [] {
    } else {
      var before, last := mapped[..|mapped| - 1], mapped[|mapped| - 1];
      LookupIs(before, name);
      assert mapped == before + [last];
      HasNameAppend(before, [last], name);
      assert [last][0] == last;
    }
  }

  // Of several pairs with one name the last counts.
  lemma {:induction false} LookupIsLast(mapped: seq<Pair>, name: Name)
    ensures Lookup(mapped, name).Some?
            ==> exists i :: 0 <= i < |mapped| && mapped[i] == Pair(name, Lookup(mapped, name).value)
                            && forall j :: i < j < |mapped| ==> mapped[j].name != name
  {
    if mapped == [] || mapped[|mapped| - 1].name == name {
    } else {
      var before := mapped[..|mapped| - 1];
      LookupIsLast(before, name);
      if Lookup(mapped, name).Some? {
        var i :| 0 <= i < |before| && before[i] == Pair(name, Lookup(before, name).value)
                 && forall j :: i < j < |before| ==> before[j].name != name;
        assert mapped[i] == before[i];
      }
    }
  }

  lemma {:induction false} ForeignAppend(a: seq<Known>, b: seq<Known>, names: Names)
    ensures Foreign(a + b, names) == Foreign(a, names) + Foreign(b, names)
  {
    if b == [] {
      assert a + b == a;
    } else {
      ForeignAppend(a, b[..|b| - 1], names);
      assert (a + b)[..|a + b| - 1] == a + b[..|b| - 1];
    }
  }

  lemma {:induction false} RenewedForeign(current: seq<Known>, names: Names, mapped: seq<Pair>)
    requires HasShortNames(names)
    ensures Foreign(Renewed(current, names.Values, mapped), names) == Foreign(current, names)
  {
    if current == [] {
    } else {
      var before, e := current[..|current| - 1], current[|current| - 1];
      RenewedForeign(before, names, mapped);
      var rest := Renewed(before, names.Values, mapped);
      if e.rigId !in names.Values {
        ForeignAppend(rest, [e], names);
        OneForeign(e, names);
      } else if Lookup(mapped, e.rigId).Some? {
        var f := FromSnapshot(e.rigId, Lookup(mapped, e.rigId).value);
        ForeignAppend(rest, [f], names);
        OneForeign(f, names);
      }
    }
  }

  lemma OneForeign(e: Known, names: Names)
    ensures Foreign([e], names) == if Owns(names, e.rigId) then [] else [e]
  {
    assert [e][..0] == [];
  }

  lemma {:induction false} FreshForeign(mapped: seq<Pair>, inserted: set<Name>, names: Names)
    requires forall i :: 0 <= i < |mapped| ==> Owns(names, mapped[i].name)
    ensures Foreign(Fresh(mapped, inserted), names) == []
  {
    if mapped == [] {
    } else {
      var before, p := mapped[..|mapped| - 1], mapped[|mapped| - 1];
      FreshForeign(before, inserted, names);
      FreshSnoc(mapped, |before|, inserted);
      assert mapped[..|mapped|] == mapped;
      ForeignAppend(Fresh(before, inserted), [FromSnapshot(p.name, p.rig)], names);
      OneForeign(FromSnapshot(p.name, p.rig), names);
    }
  }

  lemma {:induction false} NoneForeign(list: seq<Known>, names: Names)
    requires !HasShortNames(names)
    ensures Foreign(list, names) == []
  {
    if list == [] {
    } else {
      NoneForeign(list[..|list| - 1], names);
    }
  }

  // A refresh leaves the entries of other servers, and their order, untouched.
  lemma OthersUntouched(current: seq<Known>, names: Names, mapped: seq<Pair>)
    requires Own(mapped, names)
    ensures Foreign(Cached(current, names, mapped), names) == Foreign(current, names)
  {
    if HasShortNames(names) {
      var inserted := Inserted(current, names.Values, mapped);
      RenewedForeign(current, names, mapped);
      FreshForeign(mapped, inserted, names);
      ForeignAppend(Renewed(current, names.Values, mapped), Fresh(mapped, inserted), names);
      assert Foreign(current, names) + [] == Foreign(current, names);
    } else {
      NoneForeign(current, names);
      NoneForeign(Cached(current, names, mapped), names);
    }
  }

  lemma ListedAppend(a: seq<Known>, b: seq<Known>, name: Name)
    ensures Listed(a + b, name) <==> Listed(a, name) || Listed(b, name)
  {
    forall i | 0 <= i < |a| ensures (a + b)[i] == a[i] {
    }
    forall i | 0 <= i < |b| ensures (a + b)[|a| + i] == b[i] {
    }
    if Listed(b, name) {
      var i :| 0 <= i < |b| && b[i].rigId == name;
      assert (a + b)[|a| + i].rigId == name;
    }
  }

  lemma ListedOne(e: Known, name: Name)
    ensures Listed([e], name) <==> e.rigId == name
  {
    assert [e][0] == e;
  }

  lemma NoDuplicatesAppend(a: seq<Known>, b: seq<Known>)
    requires NoDuplicates(a) && NoDuplicates(b) && forall n :: !(Listed(a, n) && Listed(b, n))
    ensures NoDuplicates(a + b)
  {
    forall i, j | 0 <= i < j < |a + b| ensures (a + b)[i].rigId != (a + b)[j].rigId {
      if i < |a| <= j {
        assert Listed(a, a[i].rigId);
        assert Listed(b, b[j - |a|].rigId);
      }
    }
  }

  lemma NoDuplicatesFront(list: seq<Known>)
    requires list != [] && NoDuplicates(list)
    ensures NoDuplicates(list[..|list| - 1]) && !Listed(list[..|list| - 1], list[|list| - 1].rigId)
  {
  }

  // Which names are in the renewed part.
  predicate StaysListed(owned: set<Name>, mapped: seq<Pair>, name: Name) {
    name !in owned || Lookup(mapped, name).Some?
  }

  lemma {:induction false} RenewedNames(current: seq<Known>, owned: set<Name>, mapped: seq<Pair>, name: Name)
    ensures Listed(Renewed(current, owned, mapped), name) <==> Listed(current, name) && StaysListed(owned, mapped, name)
  {
    hide Lookup;
    if current == [] {
    } else {
      var before, e := current[..|current| - 1], current[|current| - 1];
      RenewedNames(before, owned, mapped, name);
      assert current == before + [e];
      ListedAppend(before, [e], name);
      ListedOne(e, name);
      var rest := Renewed(before, owned, mapped);
      if e.rigId !in owned {
        ListedAppend(rest, [e], name);
      } else if Lookup(mapped, e.rigId).Some? {
        var f := FromSnapshot(e.rigId, Lookup(mapped, e.rigId).value);
        ListedAppend(rest, [f], name);
        ListedOne(f, name);
      }
    }
  }

  lemma {:induction false} RenewedNoDuplicates(current: seq<Known>, owned: set<Name>, mapped: seq<Pair>)
    requires NoDuplicates(current)
    ensures NoDuplicates(Renewed(current, owned, mapped))
  {
    hide Lookup;
    if current == [] {
    } else {
      var before, e := current[..|current| - 1], current[|current| - 1];
      NoDuplicatesFront(current);
      RenewedNoDuplicates(before, owned, mapped);
      var rest := Renewed(before, owned, mapped);
      var f := if e.rigId !in owned then e
               else if Lookup(mapped, e.rigId).Some? then FromSnapshot(e.rigId, Lookup(mapped, e.rigId).value) else e;
      forall n ensures !(Listed(rest, n) && Listed([f], n)) {
        RenewedNames(before, owned, mapped, n);
        ListedOne(f, n);
      }
      NoDuplicatesAppend(rest, [f]);
    }
  }

  lemma {:induction false} FreshNames(mapped: seq<Pair>, inserted: set<Name>, name: Name)
    ensures Listed(Fresh(mapped, inserted), name) <==> HasName(mapped, name) && name !in inserted
  {
    if mapped == [] {
    } else {
      var before, p := mapped[..|mapped| - 1], mapped[|mapped| - 1];
      FreshNames(before, inserted, name);
      assert mapped == before + [p];
      HasNameAppend(before, [p], name);
      assert [p][0] == p;
      if p.name in inserted {
        assert Fresh(before, inserted) + [] == Fresh(before, inserted);
      } else {
        ListedAppend(Fresh(before, inserted), [FromSnapshot(p.name, p.rig)], name);
        ListedOne(FromSnapshot(p.name, p.rig), name);
      }
    }
  }

  lemma {:induction false} FreshNoDuplicates(mapped: seq<Pair>, inserted: set<Name>)
    requires DistinctNames(mapped)
    ensures NoDuplicates(Fresh(mapped, inserted))
  {
    if mapped == [] {
    } else {
      var before, p := mapped[..|mapped| - 1], mapped[|mapped| - 1];
      FreshNoDuplicates(before, inserted);
      if p.name in inserted {
        assert Fresh(before, inserted) + [] == Fresh(before, inserted);
      } else {
        forall n ensures !(Listed(Fresh(before, inserted), n) && Listed([FromSnapshot(p.name, p.rig)], n)) {
          FreshNames(before, inserted, n);
          ListedOne(FromSnapshot(p.name, p.rig), n);
        }
        NoDuplicatesAppend(Fresh(before, inserted), [FromSnapshot(p.name, p.rig)]);
      }
    }
  }

  // After a merge the names of other servers are those that were there, and the own ones are
  // exactly those just mapped.
  lemma MergedNames(current: seq<Known>, names: Names, mapped: seq<Pair>, name: Name)
    requires Own(mapped, names)
    ensures Listed(Next(current, names, mapped), name)
            <==> if Owns(names, name) then HasName(mapped, name) else Listed(current, name)
  {
    hide Renewed, Fresh, Lookup;
    if HasShortNames(names) {
      var inserted := Inserted(current, names.Values, mapped);
      RenewedNames(current, names.Values, mapped, name);
      FreshNames(mapped, inserted, name);
      ListedAppend(Renewed(current, names.Values, mapped), Fresh(mapped, inserted), name);
      LookupIs(mapped, name);
      InsertedIs(current, names.Values, mapped, name);
    } else {
      FreshNames(mapped, {}, name);
    }
  }

  lemma InsertedIs(current: seq<Known>, owned: set<Name>, mapped: seq<Pair>, name: Name)
    ensures name in Inserted(current, owned, mapped)
            <==> Listed(current, name) && name in owned && Lookup(mapped, name).Some?
  {
    hide Lookup;
    if Listed(current, name) {
      var i :| 0 <= i < |current| && current[i].rigId == name;
      assert current[i] in current;
    }
  }

  lemma MergedNoDuplicates(current: seq<Known>, names: Names, mapped: seq<Pair>)
    requires Own(mapped, names) && NoDuplicates(current)
    ensures NoDuplicates(Next(current, names, mapped))
  {
    hide Renewed, Fresh, Lookup;
    if HasShortNames(names) {
      var owned := names.Values;
      var inserted := Inserted(current, owned, mapped);
      var renewed, added := Renewed(current, owned, mapped), Fresh(mapped, inserted);
      RenewedNoDuplicates(current, owned, mapped);
      FreshNoDuplicates(mapped, inserted);
      forall n ensures !(Listed(renewed, n) && Listed(added, n)) {
        RenewedNames(current, owned, mapped, n);
        FreshNames(mapped, inserted, n);
        InsertedIs(current, owned, mapped, n);
        LookupIs(mapped, n);
      }
      NoDuplicatesAppend(renewed, added);
    } else {
      FreshNoDuplicates(mapped, {});
    }
  }

  // Every own entry is the snapshot just received.
  ghost predicate Renews(list: seq<Known>, names: Names, mapped: seq<Pair>) {
    forall i :: 0 <= i < |list| && Owns(names, list[i].rigId)
                ==> Lookup(mapped, list[i].rigId).Some?
                    && var rig := Lookup(mapped, list[i].rigId).value;
                       list[i].displayName == rig.displayName && list[i].state == rig.state
                       && list[i].audioPort == rig.audioPort
  }

  lemma {:induction false} RenewedData(current: seq<Known>, names: Names, mapped: seq<Pair>)
    requires HasShortNames(names)
    ensures Renews(Renewed(current, names.Values, mapped), names, mapped)
  {
    hide Lookup;
    if current == [] {
    } else {
      RenewedData(current[..|current| - 1], names, mapped);
    }
  }

  lemma {:induction false} FreshData(mapped: seq<Pair>, part: nat, inserted: set<Name>, names: Names)
    requires part <= |mapped| && DistinctNames(mapped)
    ensures Renews(Fresh(mapped[..part], inserted), names, mapped)
  {
    if part == 0 {
    } else {
      FreshData(mapped, part - 1, inserted, names);
      FreshSnoc(mapped, part - 1, inserted);
      LookupAt(mapped, part - 1);
    }
  }

  lemma {:induction false} LookupAt(mapped: seq<Pair>, i: nat)
    requires i < |mapped| && DistinctNames(mapped)
    ensures Lookup(mapped, mapped[i].name) == Some(mapped[i].rig)
  {
    if i == |mapped| - 1 {
    } else {
      LookupAt(mapped[..|mapped| - 1], i);
    }
  }

  // Every own entry of a merged list is the snapshot just received.
  lemma MergedData(current: seq<Known>, names: Names, mapped: seq<Pair>)
    requires Own(mapped, names)
    ensures Renews(Next(current, names, mapped), names, mapped)
  {
    hide Lookup, Renewed, Fresh;
    assert mapped[..|mapped|] == mapped;
    if HasShortNames(names) {
      RenewedData(current, names, mapped);
      FreshData(mapped, |mapped|, Inserted(current, names.Values, mapped), names);
    } else {
      FreshData(mapped, |mapped|, {}, names);
    }
  }

  lemma SameNames(a: seq<Known>, b: seq<Known>)
    requires SameList(a, b)
    ensures NoDuplicates(a) <==> NoDuplicates(b)
    ensures forall n :: Listed(a, n) <==> Listed(b, n)
  {
    forall i | 0 <= i < |a| ensures a[i].rigId == b[i].rigId {
      assert SameEntry(a[i], b[i]);
    }
  }

  // The whole effect of a refresh on the names.
  lemma CachedNames(current: seq<Known>, names: Names, mapped: seq<Pair>)
    requires Own(mapped, names) && NoDuplicates(current)
    ensures NoDuplicates(Cached(current, names, mapped))
    ensures forall n :: Listed(Cached(current, names, mapped), n)
                        <==> if Owns(names, n) then HasName(mapped, n) else Listed(current, n)
  {
    hide Next, Own, Owns, NoDuplicates, Listed, HasName;
    var next := Next(current, names, mapped);
    MergedNoDuplicates(current, names, mapped);
    forall n ensures Listed(next, n) <==> if Owns(names, n) then HasName(mapped, n) else Listed(current, n) {
      MergedNames(current, names, mapped, n);
    }
    if SameList(current, next) {
      SameNames(current, next);
    }
  }

  // The part of a state that the comparison does not look at.
  predicate SameRest(a: State, b: State) {
    a.tx == b.tx && a.rest == b.rest
  }

  // The own entries of the list are the snapshots just received, unless the comparison sees no
  // difference and yet the rest of some own rig's state has changed: then the list stays stale.
  lemma FreshIff(current: seq<Known>, names: Names, mapped: seq<Pair>)
    requires Own(mapped, names)
    ensures var next := Next(current, names, mapped);
            Renews(Cached(current, names, mapped), names, mapped)
            <==> (SameList(current, next)
                  ==> forall i :: 0 <= i < |current| && Owns(names, current[i].rigId)
                                  ==> SameRest(current[i].state, next[i].state))
  {
    hide Renews, SameRest, Own, Owns, Next;
    MergedData(current, names, mapped);
    if SameList(current, Next(current, names, mapped)) {
      StaleEntries(current, Next(current, names, mapped), names, mapped);
    }
  }

  lemma StaleEntries(current: seq<Known>, next: seq<Known>, names: Names, mapped: seq<Pair>)
    requires Renews(next, names, mapped) && SameList(current, next)
    ensures Renews(current, names, mapped)
            <==> forall i :: 0 <= i < |current| && Owns(names, current[i].rigId)
                             ==> SameRest(current[i].state, next[i].state)
  {
    hide Lookup, Owns;
    forall i | 0 <= i < |current| && Owns(names, current[i].rigId)
      ensures current[i] == next[i] <==> SameRest(current[i].state, next[i].state)
      ensures current[i] == next[i]
              <==> Lookup(mapped, current[i].rigId).Some?
                   && current[i] == FromSnapshot(current[i].rigId, Lookup(mapped, current[i].rigId).value)
    {
      assert SameEntry(current[i], next[i]);
    }
  }

  // A rig that starts transmitting is such a change: the list goes on showing it as receiving.
  lemma TransmittingGoesUnseen(names: Names, id: string, display: Option<string>, port: Option<nat>, rest: nat)
    requires Some(id) in names
    ensures var before := RigEntry(id, display, State(false, true, rest), port);
            var now := before.(state := State(true, true, rest));
            var list := Cached([], names, Mapped(names, [before]));
            && list == [FromSnapshot(names[Some(id)], before)]
            && Cached(list, names, Mapped(names, [now])) == list
            && !Renews(list, names, Mapped(names, [now]))
  {
    hide Merged, Fresh, Lookup, Mapped;
    var before := RigEntry(id, display, State(false, true, rest), port);
    var now := before.(state := State(true, true, rest));
    var name := names[Some(id)];
    var list := [FromSnapshot(name, before)];
    MappedOne(names, before);
    MappedOne(names, now);
    FirstMerge(names.Values, Pair(name, before));
    SecondMerge(list[0], names.Values, Pair(name, now));
    assert !SameList([], list);
    assert SameEntry(list[0], FromSnapshot(name, now));
    assert Owns(names, list[0].rigId);
  }

  lemma MappedOne(names: Names, r: RigEntry)
    requires Some(r.rigId) in names
    ensures Mapped(names, [r]) == [Pair(names[Some(r.rigId)], r)]
  {
    hide HasUnnamed, ChooseDefaultRig;
    assert MappedUpTo(names, [r], 0) == [];
    assert Added(names, [r], r, None in names && HasUnnamed(names, [r][..0])) == [Pair(names[Some(r.rigId)], r)];
  }

  lemma FirstMerge(owned: set<Name>, p: Pair)
    ensures Merged([], owned, [p]) == [FromSnapshot(p.name, p.rig)]
  {
    EmptyParts(owned, [p]);
    FreshOne(p, {});
  }

  lemma SecondMerge(e: Known, owned: set<Name>, p: Pair)
    requires e.rigId == p.name && p.name in owned
    ensures Merged([e], owned, [p]) == [FromSnapshot(p.name, p.rig)] && Lookup([p], p.name) == Some(p.rig)
  {
    assert [p][0] == p;
    assert Lookup([p], p.name) == Some(p.rig);
    assert [e][..0] == [];
    assert [e][0] == e;
    EmptyParts(owned, [p]);
    assert Renewed([e], owned, [p]) == [] + [FromSnapshot(p.name, p.rig)];
    assert Inserted([e], owned, [p]) == {p.name};
    FreshOne(p, {p.name});
  }

  lemma FreshOne(p: Pair, inserted: set<Name>)
    ensures Fresh([p], inserted) == if p.name in inserted then [] else [FromSnapshot(p.name, p.rig)]
  {
    assert [p][..0] == [];
    assert Fresh([], inserted) == [];
  }

  // ---- several servers ----------------------------------------------------------------------

  // No short name belongs to two servers.
  ghost predicate Disjoint(servers: seq<Names>) {
    forall s, t, name :: 0 <= s < t < |servers| && Owns(servers[s], name) ==> !Owns(servers[t], name)
  }

  datatype Refresh = Refresh(server: nat, rigs: seq<RigEntry>)

  ghost predicate Proper(servers: seq<Names>, run: seq<Refresh>) {
    && (forall s :: 0 <= s < |servers| ==> OneToOne(servers[s]))
    && (forall i :: 0 <= i < |run| ==> run[i].server < |servers| && UniqueIds(run[i].rigs))
  }

  function After(servers: seq<Names>, run: seq<Refresh>): seq<Known>
    requires forall i :: 0 <= i < |run| ==> run[i].server < |servers|
  {
    if run == [] then []
    else
      var last := run[|run| - 1];
      Cached(After(servers, run[..|run| - 1]), servers[last.server], Mapped(servers[last.server], last.rigs))
  }

  lemma MappedIsOwn(names: Names, rigs: seq<RigEntry>)
    requires OneToOne(names) && UniqueIds(rigs)
    ensures Own(Mapped(names, rigs), names)
  {
    MappedOk(names, rigs, |rigs|);
    var mapped := Mapped(names, rigs);
    forall i | 0 <= i < |mapped| ensures Owns(names, mapped[i].name) {
      assert PairOk(names, rigs, mapped[i]);
    }
  }

  lemma {:induction false} NeverDuplicates(servers: seq<Names>, run: seq<Refresh>)
    requires Proper(servers, run)
    ensures NoDuplicates(After(servers, run))
  {
    hide Cached, Mapped, OneToOne, UniqueIds;
    if run == [] {
    } else {
      var before, last := run[..|run| - 1], run[|run| - 1];
      NeverDuplicates(servers, before);
      MappedIsOwn(servers[last.server], last.rigs);
      CachedNames(After(servers, before), servers[last.server], Mapped(servers[last.server], last.rigs));
    }
  }

  // In every run, a server's names in the list are those its own last refresh mapped, whatever
  // other servers' refreshes came since.
  lemma {:induction false} NamesAreFromLastRefresh(servers: seq<Names>, run: seq<Refresh>, k: nat, name: Name)
    requires Proper(servers, run) && Disjoint(servers)
    requires k < |run| && Owns(servers[run[k].server], name)
    requires forall j :: k < j < |run| ==> run[j].server != run[k].server
    ensures Listed(After(servers, run), name) <==> HasName(Mapped(servers[run[k].server], run[k].rigs), name)
  {
    hide Cached, Mapped, OneToOne, UniqueIds;
    var before, last := run[..|run| - 1], run[|run| - 1];
    NeverDuplicates(servers, before);
    MappedIsOwn(servers[last.server], last.rigs);
    CachedNames(After(servers, before), servers[last.server], Mapped(servers[last.server], last.rigs));
    if k < |run| - 1 {
      NamesAreFromLastRefresh(servers, before, k, name);
      NotShared(servers, run[k].server, last.server, name);
    }
  }

  lemma NotShared(servers: seq<Names>, s: nat, t: nat, name: Name)
    requires Disjoint(servers) && s < |servers| && t < |servers| && s != t && Owns(servers[s], name)
    ensures !Owns(servers[t], name)
  {
    if t < s && Owns(servers[t], name) {
      assert false;
    }
  }
}
