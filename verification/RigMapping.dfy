// Mapping a server's rigs to the client's short names
// (src/trx-client/src/remote_client.rs:766-801, 1013-1041, 1137-1144).
module RigMapping {
  import opened Basics

  type Name = string

  // Of a rig's state only what decides the choice of a default rig is told apart.
  datatype State = State(tx: bool, initialized: bool, rest: nat)

  datatype RigEntry = RigEntry(rigId: string, displayName: Option<string>, state: State, audioPort: Option<nat>)

  // Short names by rig; the name without a rig is for the server's default rig. With no names
  // at all, which is the mode for a single server, every rig goes by its identifier.
  type Names = map<Option<string>, Name>

  ghost predicate OneToOne(names: Names) {
    forall a, b :: a in names && b in names && names[a] == names[b] ==> a == b
  }

  ghost predicate UniqueIds(rigs: seq<RigEntry>) {
    forall i, j :: 0 <= i < j < |rigs| ==> rigs[i].rigId != rigs[j].rigId
  }

  // ---- the default rig ------------------------------------------------------------------

  predicate StringLeq(a: string, b: string) {
    a == [] || (b != [] && (a[0] < b[0] || (a[0] == b[0] && StringLeq(a[1..], b[1..]))))
  }

  // Transmitters first, then initialised rigs, then the greater identifier.
  predicate KeyLeq(a: RigEntry, b: RigEntry) {
    if a.state.tx != b.state.tx then b.state.tx
    else if a.state.initialized != b.state.initialized then b.state.initialized
    else StringLeq(a.rigId, b.rigId)
  }

  lemma {:induction false} StringTotal(a: string, b: string)
    ensures StringLeq(a, b) || StringLeq(b, a)
  {
    if a == [] || b == [] || a[0] != b[0] {
    } else {
      StringTotal(a[1..], b[1..]);
    }
  }

  lemma {:induction false} StringTransitive(a: string, b: string, c: string)
    requires StringLeq(a, b) && StringLeq(b, c)
    ensures StringLeq(a, c)
  {
    if a == [] || b == [] || c == [] || !(a[0] == b[0] == c[0]) {
    } else {
      StringTransitive(a[1..], b[1..], c[1..]);
    }
  }

  lemma KeyTotal(a: RigEntry, b: RigEntry)
    ensures KeyLeq(a, b) || KeyLeq(b, a)
  {
    StringTotal(a.rigId, b.rigId);
  }

  lemma KeyTransitive(a: RigEntry, b: RigEntry, c: RigEntry)
    requires KeyLeq(a, b) && KeyLeq(b, c)
    ensures KeyLeq(a, c)
  {
    if StringLeq(a.rigId, b.rigId) && StringLeq(b.rigId, c.rigId) {
      StringTransitive(a.rigId, b.rigId, c.rigId);
    }
  }

  // The last greatest entry.
  function ChooseDefaultRig(rigs: seq<RigEntry>): (r: Option<RigEntry>)
    ensures r.None? <==> rigs == []
    ensures r.Some? ==> r.value in rigs
  {
    if rigs == [] then None
    else
      var last := rigs[|rigs| - 1];
      var before := ChooseDefaultRig(rigs[..|rigs| - 1]);
      if before.Some? && !KeyLeq(before.value, last) then before else Some(last)
  }

  // No rig ranks above the default rig.
  lemma {:induction false} DefaultIsGreatest(rigs: seq<RigEntry>, r: RigEntry)
    requires r in rigs
    ensures KeyLeq(r, ChooseDefaultRig(rigs).value)
  {
    var before, last := rigs[..|rigs| - 1], rigs[|rigs| - 1];
    KeyTotal(last, last);
    assert rigs == before + [last];
    if r in before {
      DefaultIsGreatest(before, r);
      var best := ChooseDefaultRig(before).value;
      KeyTotal(best, last);
      if KeyLeq(best, last) {
        KeyTransitive(r, best, last);
      }
    } else {
      var b := ChooseDefaultRig(before);
      if b.Some? {
        KeyTotal(b.value, last);
      }
    }
  }

  ghost predicate LastAt(rigs: seq<RigEntry>, k: nat, best: RigEntry) {
    k < |rigs| && rigs[k] == best && forall j :: k < j < |rigs| ==> !KeyLeq(best, rigs[j])
  }

  // Of equals the last one is chosen.
  lemma {:induction false} DefaultIsLast(rigs: seq<RigEntry>) returns (k: nat)
    requires rigs != []
    ensures LastAt(rigs, k, ChooseDefaultRig(rigs).value)
  {
    hide KeyLeq;
    k := |rigs| - 1;
    var front, last := rigs[..k], rigs[k];
    var before := ChooseDefaultRig(front);
    if before.Some? && !KeyLeq(before.value, last) {
      k := DefaultIsLast(front);
      LastAtMore(front, last, k, before.value);
      assert rigs == front + [last];
    }
  }

  lemma LastAtMore(rigs: seq<RigEntry>, last: RigEntry, k: nat, best: RigEntry)
    requires LastAt(rigs, k, best) && !KeyLeq(best, last)
    ensures LastAt(rigs + [last], k, best)
  {
    hide KeyLeq;
    assert forall j :: 0 <= j < |rigs| ==> (rigs + [last])[j] == rigs[j];
  }

  // ---- the order, spelled out ---------------------------------------------------------------

  // The first difference decides; what goes on is greater than what has ended.
  ghost predicate Differ(a: string, b: string, k: nat) {
    k <= |a| && k < |b| && a[..k] == b[..k] && (k == |a| || a[k] < b[k])
  }

  ghost predicate Less(a: string, b: string) {
    exists k: nat :: Differ(a, b, k)
  }

  lemma {:induction false} StringOrder(a: string, b: string)
    ensures StringLeq(a, b) <==> a == b || Less(a, b)
  {
    if a == [] {
      assert b != [] ==> Differ(a, b, 0);
    } else if b == [] {
    } else {
      StringOrder(a[1..], b[1..]);
      assert a == [a[0]] + a[1..] && b == [b[0]] + b[1..];
      if a[0] == b[0] {
        assert a == b <==> a[1..] == b[1..];
        SameHead(a, b);
      } else if a[0] < b[0] {
        assert Differ(a, b, 0);
      } else {
        GreaterHead(a, b);
      }
    }
  }

  lemma GreaterHead(a: string, b: string)
    requires a != [] && b != [] && a[0] > b[0]
    ensures !Less(a, b)
  {
    forall k: nat ensures !Differ(a, b, k) {
      if 0 < k <= |a| && k < |b| {
        assert a[..k][0] == a[0] && b[..k][0] == b[0];
      }
    }
  }

  lemma SameHead(a: string, b: string)
    requires a != [] && b != [] && a[0] == b[0]
    ensures Less(a, b) <==> Less(a[1..], b[1..])
  {
    if Less(a, b) {
      var k: nat :| Differ(a, b, k);
      assert a[1..][..k - 1] == a[..k][1..] && b[1..][..k - 1] == b[..k][1..];
      assert Differ(a[1..], b[1..], k - 1);
    }
    if Less(a[1..], b[1..]) {
      var k: nat :| Differ(a[1..], b[1..], k);
      assert a[..k + 1] == [a[0]] + a[1..][..k] && b[..k + 1] == [b[0]] + b[1..][..k];
      assert Differ(a, b, k + 1);
    }
  }

  // A transmitting rig is above one that is not; else an initialised one above one that is not;
  // else the greater identifier.
  ghost predicate Outranks(a: RigEntry, b: RigEntry) {
    || (a.state.tx && !b.state.tx)
    || (a.state.tx == b.state.tx && a.state.initialized && !b.state.initialized)
    || (a.state.tx == b.state.tx && a.state.initialized == b.state.initialized && Less(b.rigId, a.rigId))
  }

  lemma NotBoth(a: string, b: string)
    requires Less(a, b)
    ensures !Less(b, a) && a != b
  {
    var k: nat :| Differ(a, b, k);
    forall m: nat ensures !Differ(b, a, m) {
      if m < k {
        assert a[..k][m] == a[m] && b[..k][m] == b[m];
      } else if m > k && k < |a| && m <= |b| {
        assert b[..m][k] == b[k];
        assert m <= |a| ==> a[..m][k] == a[k];
      }
    }
  }

  lemma OutranksIs(a: RigEntry, b: RigEntry)
    ensures Outranks(a, b) <==> !KeyLeq(a, b)
  {
    StringOrder(a.rigId, b.rigId);
    StringTotal(a.rigId, b.rigId);
    StringOrder(b.rigId, a.rigId);
    if Less(b.rigId, a.rigId) {
      NotBoth(b.rigId, a.rigId);
    }
  }

  ghost predicate Top(rigs: seq<RigEntry>, r: RigEntry) {
    r in rigs && forall x :: x in rigs && x != r ==> Outranks(r, x)
  }

  lemma TopIsDefault(rigs: seq<RigEntry>, r: RigEntry)
    requires Top(rigs, r)
    ensures ChooseDefaultRig(rigs) == Some(r)
  {
    hide KeyLeq, Outranks;
    DefaultIsGreatest(rigs, r);
    OutranksIs(r, ChooseDefaultRig(rigs).value);
  }

  // ---- the mapping loop -------------------------------------------------------------------

  datatype Pair = Pair(name: Name, rig: RigEntry)

  predicate HasShortNames(names: Names) {
    names != map[]
  }

  predicate Explicit(names: Names, r: RigEntry) {
    !HasShortNames(names) || Some(r.rigId) in names
  }

  // The name a rig has for itself.
  function NameOf(names: Names, r: RigEntry): Name
    requires Explicit(names, r)
  {
    if HasShortNames(names) then names[Some(r.rigId)] else r.rigId
  }

  // The rig for the name without a rig: the default rig, unless that has a name of its own.
  function Candidate(names: Names, rigs: seq<RigEntry>, entry: RigEntry): RigEntry {
    var best := ChooseDefaultRig(rigs);
    if best.Some? && !Explicit(names, best.value) then best.value else entry
  }

  // The pairs that the loop adds for one entry.
  function Added(names: Names, rigs: seq<RigEntry>, entry: RigEntry, resolved: bool): seq<Pair> {
    if Explicit(names, entry) then [Pair(NameOf(names, entry), entry)]
    else if !resolved && None in names then [Pair(names[None], Candidate(names, rigs, entry))]
    else []
  }

  predicate HasUnnamed(names: Names, rigs: seq<RigEntry>) {
    exists i :: 0 <= i < |rigs| && !Explicit(names, rigs[i])
  }

  // The pairs after a number of entries.
  function MappedUpTo(names: Names, rigs: seq<RigEntry>, n: nat): seq<Pair>
    requires n <= |rigs|
  {
    if n == 0 then []
    else
      MappedUpTo(names, rigs, n - 1)
      + Added(names, rigs, rigs[n - 1], None in names && HasUnnamed(names, rigs[..n - 1]))
  }

  function Mapped(names: Names, rigs: seq<RigEntry>): seq<Pair> {
    MappedUpTo(names, rigs, |rigs|)
  }

  // One server's connection: its names are fixed, the map back is filled by its refreshes.
  class Connection {
    const names: Names
    var shortNameToRigId: map<Name, string>

    constructor (names: Names)
      ensures this.names == names && shortNameToRigId == map[]
    {
      this.names := names;
      shortNameToRigId := map[];
    }

    method MapRigs(rigs: seq<RigEntry>) returns (mapped: seq<Pair>)
      modifies this
      ensures mapped == Mapped(names, rigs)
      ensures shortNameToRigId == Back(names, old(shortNameToRigId), mapped)
    {
      if names != map[] {
        mapped := MapNamed(rigs);
      } else {
        mapped := AllById(names, rigs);
      }
    }

    method MapNamed(rigs: seq<RigEntry>) returns (mapped: seq<Pair>)
      requires HasShortNames(names)
      modifies this
      ensures mapped == Mapped(names, rigs)
      ensures shortNameToRigId == Inserted(old(shortNameToRigId), mapped)
    {
      hide HasUnnamed, Inserted, ChooseDefaultRig;
      mapped := [];
      var wildcardResolved := false;
      NothingMapped(names, shortNameToRigId);
      var i := 0;
      while i < |rigs|
        invariant 0 <= i <= |rigs|
        invariant mapped == MappedUpTo(names, rigs, i)
        invariant wildcardResolved == (None in names && HasUnnamed(names, rigs[..i]))
        invariant shortNameToRigId == Inserted(old(shortNameToRigId), mapped)
      {
        var entry := rigs[i];
        ghost var before := mapped;
        UnnamedSnoc(names, rigs, i);
        if Some(entry.rigId) in names {
          var shortName := names[Some(entry.rigId)];
          shortNameToRigId := shortNameToRigId[shortName := entry.rigId];
          mapped := mapped + [Pair(shortName, entry)];
          InsertedSnoc(old(shortNameToRigId), before, Pair(shortName, entry));
        } else if !wildcardResolved {
          if None in names {
            var shortName := names[None];
            var best := ChooseDefaultRig(rigs);
            var candidate := if best.Some? && Some(best.value.rigId) !in names then best.value else entry;
            shortNameToRigId := shortNameToRigId[shortName := candidate.rigId];
            mapped := mapped + [Pair(shortName, candidate)];
            wildcardResolved := true;
            InsertedSnoc(old(shortNameToRigId), before, Pair(shortName, candidate));
          }
        }
        assert before + [] == before;
        i := i + 1;
      }
    }

    static method AllById(names: Names, rigs: seq<RigEntry>) returns (mapped: seq<Pair>)
      requires !HasShortNames(names)
      ensures mapped == Mapped(names, rigs)
    {
      mapped := [];
      var i := 0;
      while i < |rigs|
        invariant 0 <= i <= |rigs|
        invariant mapped == MappedUpTo(names, rigs, i)
      {
        mapped := mapped + [Pair(rigs[i].rigId, rigs[i])];
        i := i + 1;
      }
    }
  }

  lemma NothingMapped(names: Names, m: map<Name, string>)
    ensures !HasUnnamed(names, []) && Inserted(m, []) == m
  {
  }

  function Inserted(m: map<Name, string>, mapped: seq<Pair>): map<Name, string> {
    if mapped == [] then m
    else
      var last := mapped[|mapped| - 1];
      Inserted(m, mapped[..|mapped| - 1])[last.name := last.rig.rigId]
  }

  // The map back after a refresh; without names it is not kept.
  function Back(names: Names, m: map<Name, string>, mapped: seq<Pair>): map<Name, string> {
    if HasShortNames(names) then Inserted(m, mapped) else m
  }

  lemma InsertedSnoc(m: map<Name, string>, mapped: seq<Pair>, p: Pair)
    ensures Inserted(m, mapped + [p]) == Inserted(m, mapped)[p.name := p.rig.rigId]
  {
    assert (mapped + [p])[..|mapped + [p]| - 1] == mapped;
  }

  lemma UnnamedSnoc(names: Names, rigs: seq<RigEntry>, i: nat)
    requires i < |rigs|
    ensures HasUnnamed(names, rigs[..i + 1]) <==> HasUnnamed(names, rigs[..i]) || !Explicit(names, rigs[i])
  {
    var before, now := rigs[..i], rigs[..i + 1];
    assert now[i] == rigs[i];
    assert forall k :: 0 <= k < i ==> now[k] == before[k];
  }

  // ---- what the mapping is ------------------------------------------------------------------

  // The name of a rig: its own, or the one without a rig.
  function ResolveShortName(names: Names, rigId: string): Option<Name> {
    if !HasShortNames(names) then Some(rigId)
    else if Some(rigId) in names then Some(names[Some(rigId)])
    else if None in names then Some(names[None])
    else None
  }

  ghost predicate DistinctNames(mapped: seq<Pair>) {
    forall i, j :: 0 <= i < j < |mapped| ==> mapped[i].name != mapped[j].name
  }

  // A pair is for a rig of the response, under the name of that rig.
  ghost predicate PairOk(names: Names, rigs: seq<RigEntry>, p: Pair) {
    p.rig in rigs && ResolveShortName(names, p.rig.rigId) == Some(p.name)
  }

  // After `n` entries, a pair with a name of its own is for one of them, and there is a pair
  // for the name without a rig only when one of them has no name.
  ghost predicate UpTo(names: Names, rigs: seq<RigEntry>, n: nat, p: Pair)
    requires n <= |rigs|
  {
    if Explicit(names, p.rig) then p.rig in rigs[..n] else HasUnnamed(names, rigs[..n])
  }

  ghost predicate PairsOk(names: Names, rigs: seq<RigEntry>, n: nat, mapped: seq<Pair>)
    requires n <= |rigs|
  {
    DistinctNames(mapped)
    && forall i :: 0 <= i < |mapped| ==> PairOk(names, rigs, mapped[i]) && UpTo(names, rigs, n, mapped[i])
  }

  lemma {:induction false} MappedOk(names: Names, rigs: seq<RigEntry>, n: nat)
    requires n <= |rigs| && OneToOne(names) && UniqueIds(rigs)
    ensures PairsOk(names, rigs, n, MappedUpTo(names, rigs, n))
    decreases n
  {
    if n == 0 {
    } else {
      hide HasUnnamed, PairsOk, Added, OneToOne, UniqueIds;
      var before := MappedUpTo(names, rigs, n - 1);
      var resolved := None in names && HasUnnamed(names, rigs[..n - 1]);
      var added := Added(names, rigs, rigs[n - 1], resolved);
      MappedOk(names, rigs, n - 1);
      PairsStayOk(names, rigs, n, before);
      AtMostOne(names, rigs, n, resolved);
      if added == [] {
        assert before + added == before;
      } else {
        OnePairMore(names, rigs, n, before, added[0], resolved);
        assert added == [added[0]];
      }
    }
  }

  lemma AtMostOne(names: Names, rigs: seq<RigEntry>, n: nat, resolved: bool)
    requires 0 < n <= |rigs|
    ensures |Added(names, rigs, rigs[n - 1], resolved)| <= 1
  {
  }

  lemma PairsStayOk(names: Names, rigs: seq<RigEntry>, n: nat, mapped: seq<Pair>)
    requires 0 < n <= |rigs| && PairsOk(names, rigs, n - 1, mapped)
    ensures PairsOk(names, rigs, n, mapped)
  {
    hide PairOk, UpTo;
    forall i | 0 <= i < |mapped| ensures UpTo(names, rigs, n, mapped[i]) {
      UpToGrows(names, rigs, n, mapped[i]);
    }
  }

  lemma OnePairMore(names: Names, rigs: seq<RigEntry>, n: nat, before: seq<Pair>, p: Pair, resolved: bool)
    requires 0 < n <= |rigs| && OneToOne(names) && UniqueIds(rigs)
    requires resolved == (None in names && HasUnnamed(names, rigs[..n - 1]))
    requires PairsOk(names, rigs, n - 1, before) && PairsOk(names, rigs, n, before)
    requires Added(names, rigs, rigs[n - 1], resolved) != [] && p == Added(names, rigs, rigs[n - 1], resolved)[0]
    ensures PairsOk(names, rigs, n, before + [p])
  {
    hide HasUnnamed, Added, OneToOne, UniqueIds, PairOk, UpTo;
    AddedOk(names, rigs, n, resolved);
    forall i | 0 <= i < |before| ensures before[i].name != p.name {
      NewName(names, rigs, n, before[i], resolved);
    }
  }

  lemma UpToGrows(names: Names, rigs: seq<RigEntry>, n: nat, p: Pair)
    requires 0 < n <= |rigs| && UpTo(names, rigs, n - 1, p)
    ensures UpTo(names, rigs, n, p)
  {
    UnnamedSnoc(names, rigs, n - 1);
    assert rigs[..n] == rigs[..n - 1] + [rigs[n - 1]];
  }

  lemma AddedOk(names: Names, rigs: seq<RigEntry>, n: nat, resolved: bool)
    requires 0 < n <= |rigs| && Added(names, rigs, rigs[n - 1], resolved) != []
    ensures var p := Added(names, rigs, rigs[n - 1], resolved)[0];
            PairOk(names, rigs, p) && UpTo(names, rigs, n, p)
  {
    assert rigs[..n][n - 1] == rigs[n - 1];
  }

  lemma NewName(names: Names, rigs: seq<RigEntry>, n: nat, p: Pair, resolved: bool)
    requires 0 < n <= |rigs| && OneToOne(names) && UniqueIds(rigs)
    requires resolved == (None in names && HasUnnamed(names, rigs[..n - 1]))
    requires Added(names, rigs, rigs[n - 1], resolved) != []
    requires PairOk(names, rigs, p) && UpTo(names, rigs, n - 1, p)
    ensures p.name != Added(names, rigs, rigs[n - 1], resolved)[0].name
  {
    var entry := rigs[n - 1];
    hide HasUnnamed, ChooseDefaultRig;
    if Explicit(names, entry) && Explicit(names, p.rig) {
      var k :| 0 <= k < n - 1 && rigs[..n - 1][k] == p.rig;
      assert rigs[k].rigId != entry.rigId;
    }
  }

  // Names and rigs are paired one to one.
  lemma MappingIsInjective(names: Names, rigs: seq<RigEntry>, i: nat, j: nat)
    requires OneToOne(names) && UniqueIds(rigs) && i < j < |Mapped(names, rigs)|
    ensures Mapped(names, rigs)[i].name != Mapped(names, rigs)[j].name
    ensures Mapped(names, rigs)[i].rig.rigId != Mapped(names, rigs)[j].rig.rigId
  {
    MappedOk(names, rigs, |rigs|);
    var mapped := Mapped(names, rigs);
    assert PairOk(names, rigs, mapped[i]) && PairOk(names, rigs, mapped[j]);
  }

  ghost predicate HasName(mapped: seq<Pair>, name: Name) {
    exists i :: 0 <= i < |mapped| && mapped[i].name == name
  }

  // The name of its own of one of the first rigs.
  ghost predicate OwnName(names: Names, rigs: seq<RigEntry>, n: nat, name: Name)
    requires n <= |rigs|
  {
    exists i :: 0 <= i < n && Explicit(names, rigs[i]) && NameOf(names, rigs[i]) == name
  }

  lemma OwnNameSnoc(names: Names, rigs: seq<RigEntry>, n: nat, name: Name)
    requires 0 < n <= |rigs|
    ensures OwnName(names, rigs, n, name)
            <==> OwnName(names, rigs, n - 1, name)
                 || (Explicit(names, rigs[n - 1]) && NameOf(names, rigs[n - 1]) == name)
  {
  }

  lemma AddedNames(names: Names, rigs: seq<RigEntry>, entry: RigEntry, resolved: bool, name: Name)
    ensures HasName(Added(names, rigs, entry, resolved), name)
            <==> if Explicit(names, entry) then NameOf(names, entry) == name
                 else !resolved && None in names && names[None] == name
  {
    hide Candidate;
    var added := Added(names, rigs, entry, resolved);
    assert added != [] ==> (HasName(added, name) <==> added[0].name == name);
  }

  // A name is mapped exactly when its rig is in the response, or, for the name without a rig,
  // some rig without a name is.
  lemma {:induction false} MappedNames(names: Names, rigs: seq<RigEntry>, n: nat, name: Name)
    requires n <= |rigs|
    ensures HasName(MappedUpTo(names, rigs, n), name)
            <==> OwnName(names, rigs, n, name) || (None in names && names[None] == name && HasUnnamed(names, rigs[..n]))
    decreases n
  {
    if n == 0 {
    } else {
      hide HasName, OwnName, HasUnnamed, Added;
      MappedNames(names, rigs, n - 1, name);
      UnnamedSnoc(names, rigs, n - 1);
      OwnNameSnoc(names, rigs, n, name);
      var resolved := None in names && HasUnnamed(names, rigs[..n - 1]);
      AddedNames(names, rigs, rigs[n - 1], resolved, name);
      HasNameAppend(MappedUpTo(names, rigs, n - 1), Added(names, rigs, rigs[n - 1], resolved), name);
    }
  }

  lemma HasNameAppend(a: seq<Pair>, b: seq<Pair>, name: Name)
    ensures HasName(a + b, name) <==> HasName(a, name) || HasName(b, name)
  {
    forall i | 0 <= i < |a| ensures (a + b)[i] == a[i] {
    }
    forall i | 0 <= i < |b| ensures (a + b)[|a| + i] == b[i] {
    }
    if HasName(b, name) {
      var i :| 0 <= i < |b| && b[i].name == name;
      assert (a + b)[|a| + i].name == name;
    }
  }

  // A rig without a name of its own that is mapped is the default rig, if that has none, and
  // otherwise the first without one.
  lemma {:induction false} WildcardIs(names: Names, rigs: seq<RigEntry>, n: nat, p: Pair)
    requires n <= |rigs| && p in MappedUpTo(names, rigs, n) && !Explicit(names, p.rig)
    ensures exists k :: 0 <= k < n && !Explicit(names, rigs[k]) && (forall j :: 0 <= j < k ==> Explicit(names, rigs[j]))
                        && p.rig == Candidate(names, rigs, rigs[k])
    decreases n
  {
    if n == 0 {
    } else if p in MappedUpTo(names, rigs, n - 1) {
      WildcardIs(names, rigs, n - 1, p);
    } else {
      assert forall j :: 0 <= j < n - 1 ==> rigs[..n - 1][j] == rigs[j];
      assert !Explicit(names, rigs[n - 1]);
    }
  }

  // The pair for the name without a rig is added with the first rig without a name.
  lemma {:induction false} NamelessAdded(names: Names, rigs: seq<RigEntry>, n: nat, k: nat)
    requires k < n <= |rigs| && None in names
    requires !Explicit(names, rigs[k]) && forall j :: 0 <= j < k ==> Explicit(names, rigs[j])
    ensures Pair(names[None], Candidate(names, rigs, rigs[k])) in MappedUpTo(names, rigs, n)
    decreases n
  {
    hide Candidate, Explicit;
    if k < n - 1 {
      NamelessAdded(names, rigs, n - 1, k);
    } else {
      assert forall j :: 0 <= j < k ==> rigs[..k][j] == rigs[j];
    }
  }

  // Which rig the name without a rig is for. If one rig ranks above all others and has no name of
  // its own, that one, wherever it is in the response; if it has a name, the first without one.
  lemma NamelessRig(names: Names, rigs: seq<RigEntry>, top: RigEntry, k: nat)
    requires names != map[] && None in names && Top(rigs, top)
    requires k < |rigs| && Some(rigs[k].rigId) !in names && forall j :: 0 <= j < k ==> Some(rigs[j].rigId) in names
    ensures Pair(names[None], if Some(top.rigId) in names then rigs[k] else top) in Mapped(names, rigs)
  {
    hide Top, ChooseDefaultRig;
    TopIsDefault(rigs, top);
    NamelessAdded(names, rigs, |rigs|, k);
  }

  // ---- the way back ---------------------------------------------------------------------------

  // The rig that a name is for, as the map back has it.
  function ResolveServerRigId(names: Names, m: map<Name, string>, name: Name): Option<string> {
    if !HasShortNames(names) then Some(name)
    else if name in m then Some(m[name])
    else None
  }

  // A name only ever leads to a rig with that name.
  ghost predicate BackOk(names: Names, m: map<Name, string>) {
    forall k :: ResolveServerRigId(names, m, k).Some?
                ==> ResolveShortName(names, ResolveServerRigId(names, m, k).value) == Some(k)
  }

  lemma {:induction false} InsertedIs(m: map<Name, string>, mapped: seq<Pair>)
    requires DistinctNames(mapped)
    ensures forall i :: 0 <= i < |mapped|
                        ==> mapped[i].name in Inserted(m, mapped)
                            && Inserted(m, mapped)[mapped[i].name] == mapped[i].rig.rigId
    ensures forall k :: k in Inserted(m, mapped) ==> HasName(mapped, k) || (k in m && Inserted(m, mapped)[k] == m[k])
  {
    if mapped == [] {
    } else {
      var before, last := mapped[..|mapped| - 1], mapped[|mapped| - 1];
      InsertedIs(m, before);
      assert mapped == before + [last];
      forall k ensures HasName(mapped, k) <==> HasName(before, k) || k == last.name {
        HasNameAppend(before, [last], k);
        assert [last][0] == last;
      }
      forall i | 0 <= i < |mapped|
        ensures mapped[i].name in Inserted(m, mapped) && Inserted(m, mapped)[mapped[i].name] == mapped[i].rig.rigId
      {
        if i < |before| {
          assert mapped[i] == before[i];
        }
      }
    }
  }

  // After a refresh every mapped name leads back to its rig; over all refreshes no two names lead
  // to the same rig, and the name of the rig a name leads to is that name.
  lemma WayBack(names: Names, rigs: seq<RigEntry>, m: map<Name, string>)
    requires OneToOne(names) && UniqueIds(rigs) && BackOk(names, m)
    ensures var mapped := Mapped(names, rigs);
            var now := Back(names, m, mapped);
            && (forall i :: 0 <= i < |mapped|
                            ==> ResolveServerRigId(names, now, mapped[i].name) == Some(mapped[i].rig.rigId))
            && BackOk(names, now)
            && (forall a, b | ResolveServerRigId(names, now, a) == ResolveServerRigId(names, now, b)
                  :: ResolveServerRigId(names, now, a).Some? ==> a == b)
  {
    hide HasUnnamed, OneToOne, UniqueIds, UpTo, Inserted;
    var mapped := Mapped(names, rigs);
    var now := Back(names, m, mapped);
    MappedOk(names, rigs, |rigs|);
    InsertedIs(m, mapped);
    forall i | 0 <= i < |mapped| ensures ResolveServerRigId(names, now, mapped[i].name) == Some(mapped[i].rig.rigId) {
      assert PairOk(names, rigs, mapped[i]);
    }
    forall k | ResolveServerRigId(names, now, k).Some?
      ensures ResolveShortName(names, ResolveServerRigId(names, now, k).value) == Some(k)
    {
      if HasShortNames(names) {
        if HasName(mapped, k) {
          var i :| 0 <= i < |mapped| && mapped[i].name == k;
          assert PairOk(names, rigs, mapped[i]);
        } else {
          assert ResolveServerRigId(names, m, k) == Some(m[k]);
        }
      }
    }
  }
}
