/** Versioned vector collections behind an alias. Each call of the provisioner is a few calls of the
    store, any of which may fail with or without having taken effect. Readers go through the alias,
    so it must name a usable collection at all times. */
module VectorStore {
  import opened Text

  datatype Aliased = Aliased(prefix: string, dimensions: nat)

  datatype Value = Finite(r: real) | NonFinite
  type Vector = seq<Value>
  datatype Distance = Cosine | OtherDistance
  /** `vectors` is absent when the collection has named vectors or no configuration. */
  datatype Collection = Collection(red: bool, vectors: Option<(nat, Distance)>, points: map<nat, Vector>)
  datatype Store = Store(collections: map<string, Collection>, alias: Option<string>)

  // ---------- checks ----------

  /** `is_versioned_name`. */
  predicate IsVersionedName(a: Aliased, name: string) {
    && a.prefix <= name && |a.prefix| < |name|
    && forall i | |a.prefix| <= i < |name| :: 'a' <= name[i] <= 'z' || IsDigit(name[i]) || name[i] == '_'
  }

  /** The versioned names are the prefix and a version of small letters, digits and underscores. */
  lemma VersionedNamesAre(a: Aliased, version: string, other: string)
    ensures IsVersionedName(a, a.prefix + version) <==>
              version != "" && forall i | 0 <= i < |version| ::
                97 <= version[i] as int <= 122 || 48 <= version[i] as int <= 57 || version[i] == '_'
    ensures !(a.prefix <= other) ==> !IsVersionedName(a, other)
  {
    var name, n := a.prefix + version, |a.prefix|;
    assert forall i | 0 <= i < |version| :: name[n + i] == version[i];
    assert forall i | n <= i < |name| :: name[i] == version[i - n];
  }

  predicate HasShape(a: Aliased, c: Collection) {
    c.vectors == Some((a.dimensions, Cosine))
  }

  /** `validate_versioned_collection`. */
  predicate Validates(a: Aliased, c: Collection) {
    !c.red && HasShape(a, c)
  }

  /** `validate_vector`. */
  predicate IsVector(a: Aliased, v: Vector) {
    |v| == a.dimensions && forall i | 0 <= i < |v| :: v[i].Finite?
  }

  // ---------- calls ----------

  /** How one write went: whether it took effect and whether success was reported. */
  datatype Reply = Reply(applied: bool, reported: bool)

  /** The calls, with what the store answers: `lookups` and `load` say whether the reads before and
      after a write succeed, `written` how many points went in. `Turn` is no call: the store itself
      changes the health of a collection. */
  datatype Call =
    | Ensure(name: string, lookups: bool, reply: Reply, load: bool)
    | Upsert(name: string, points: seq<(nat, Vector)>, written: nat, reported: bool)
    | Point(name: string, lookups: bool, reply: Reply)
    | Drop(name: string, lookups: bool, reply: Reply)
    | Provision(name: string, dimensions: nat, lookups: bool, reply: Reply, load: bool)
    | Turn(name: string, red: bool)

  function Created(st: Store, name: string, dimensions: nat, reply: Reply): Store {
    if name !in st.collections && reply.applied
    then st.(collections := st.collections[name := Collection(false, Some((dimensions, Cosine)), map[])])
    else st
  }

  function Written(points: map<nat, Vector>, more: seq<(nat, Vector)>): map<nat, Vector>
    decreases more
  {
    if more == [] then points else Written(points[more[0].0 := more[0].1], more[1..])
  }

  predicate Absent(id: nat, points: seq<(nat, Vector)>) {
    forall j | 0 <= j < |points| :: points[j].0 != id
  }

  /** Every id of `more` has the vector of its last occurrence there; every other id is as before. */
  ghost predicate IsUpserted(before: map<nat, Vector>, after: map<nat, Vector>, more: seq<(nat, Vector)>) {
    && (forall i | 0 <= i < |more| && Absent(more[i].0, more[i + 1..]) :: more[i].0 in after && after[more[i].0] == more[i].1)
    && (forall id | Absent(id, more) :: (id in after <==> id in before) && (id in before ==> after[id] == before[id]))
  }

  lemma {:induction false} WrittenElsewhere(points: map<nat, Vector>, more: seq<(nat, Vector)>, id: nat)
    requires Absent(id, more)
    ensures (id in Written(points, more) <==> id in points) && (id in points ==> Written(points, more)[id] == points[id])
    decreases more
  {
    if more != [] {
      assert more[0].0 != id && Absent(id, more[1..]);
      WrittenElsewhere(points[more[0].0 := more[0].1], more[1..], id);
    }
  }

  lemma {:induction false} WrittenAt(points: map<nat, Vector>, more: seq<(nat, Vector)>, i: nat)
    requires i < |more| && Absent(more[i].0, more[i + 1..])
    ensures more[i].0 in Written(points, more) && Written(points, more)[more[i].0] == more[i].1
    decreases more
  {
    var points' := points[more[0].0 := more[0].1];
    if i == 0 {
      WrittenElsewhere(points', more[1..], more[0].0);
    } else {
      assert more[1..][i - 1] == more[i] && more[1..][i..] == more[i + 1..];
      WrittenAt(points', more[1..], i - 1);
    }
  }

  lemma WrittenIsUpserted(points: map<nat, Vector>, more: seq<(nat, Vector)>)
    ensures IsUpserted(points, Written(points, more), more)
  {
    var after := Written(points, more);
    forall i | 0 <= i < |more| && Absent(more[i].0, more[i + 1..])
      ensures more[i].0 in after && after[more[i].0] == more[i].1
    {
      WrittenAt(points, more, i);
    }
    forall id | Absent(id, more)
      ensures (id in after <==> id in points) && (id in points ==> after[id] == points[id])
    {
      WrittenElsewhere(points, more, id);
    }
  }

  predicate AllVectors(a: Aliased, points: seq<(nat, Vector)>) {
    forall i | 0 <= i < |points| :: IsVector(a, points[i].1)
  }

  /** What a call does to the store, and whether it reports success. A call that needs a read to
      go on stops without effect when the read fails. */
  function Apply(st: Store, a: Aliased, call: Call): (Store, bool) {
    match call
    case Ensure(name, lookups, reply, load) =>
      if !IsVersionedName(a, name) || !lookups then (st, false)
      else
        var st' := Created(st, name, a.dimensions, reply);
        (st', load && name in st'.collections && Validates(a, st'.collections[name]))
    case Upsert(name, points, written, reported) =>
      if !IsVersionedName(a, name) || !AllVectors(a, points) then (st, false)
      else if points == [] then (st, true)
      else if name !in st.collections then (st, false)
      else
        var n := if written < |points| then written else |points|;
        var c := st.collections[name];
        (st.(collections := st.collections[name := c.(points := Written(c.points, points[..n]))]), n == |points| && reported)
    case Point(name, lookups, reply) =>
      if !IsVersionedName(a, name) || !lookups then (st, false)
      else if name !in st.collections || !Validates(a, st.collections[name]) then (st, false)
      else (if reply.applied then st.(alias := Some(name)) else st, reply.reported)
    case Drop(name, lookups, reply) =>
      if !IsVersionedName(a, name) || !lookups || st.alias == Some(name) then (st, false)
      else if name !in st.collections then (st, true)
      else (if reply.applied then st.(collections := st.collections - {name}) else st, reply.reported)
    case Provision(name, dimensions, lookups, reply, load) =>
      if !lookups then (st, false)
      else
        var st' := Created(st, name, dimensions, reply);
        (st', load && name in st'.collections && Validates(Aliased("", dimensions), st'.collections[name]))
    case Turn(name, red) =>
      if name !in st.collections then (st, true)
      else (st.(collections := st.collections[name := st.collections[name].(red := red)]), true)
  }

  function ApplyAll(st: Store, a: Aliased, calls: seq<Call>): Store
    decreases calls
  {
    if calls == [] then st else ApplyAll(Apply(st, a, calls[0]).0, a, calls[1..])
  }

  /** A collection as it is created. */
  predicate IsEmpty(c: Collection, dimensions: nat) {
    !c.red && c.vectors == Some((dimensions, Cosine)) && c.points == map[]
  }

  /** `more` has every collection of `st` as it is there, and no other but `name`. */
  predicate Extends(more: Store, st: Store, name: string) {
    && (forall n | n in st.collections :: n in more.collections && more.collections[n] == st.collections[n])
    && (forall n | n in more.collections && n !in st.collections :: n == name)
  }

  // ---------- the provisioner ----------

  class Provisioner {
    const aliased: Aliased
    var store: Store

    constructor (aliased: Aliased, store: Store)
      ensures this.aliased == aliased && this.store == store
    {
      this.aliased, this.store := aliased, store;
    }

    /** `ensure_versioned_collection`: it creates one versioned collection at most, changes nothing
        that exists, and succeeds only on a collection that validates. */
    method EnsureCollection(name: string, lookups: bool, reply: Reply, load: bool) returns (ok: bool)
      modifies this
      ensures store.alias == old(store.alias) && Extends(store, old(store), name)
      ensures !IsVersionedName(aliased, name) ==> !ok && store == old(store)
      ensures ok ==>
                && name in store.collections && !store.collections[name].red
                && store.collections[name].vectors == Some((aliased.dimensions, Cosine))
      ensures IsVersionedName(aliased, name) && lookups && load && name in old(store.collections) ==>
                ok == Validates(aliased, store.collections[name])
      ensures IsVersionedName(aliased, name) && lookups && name !in old(store.collections) ==>
                && (name in store.collections <==> reply.applied)
                && ok == (load && reply.applied)
                && (reply.applied ==> IsEmpty(store.collections[name], aliased.dimensions))
      ensures (store, ok) == Apply(old(store), aliased, Ensure(name, lookups, reply, load))
    {
      if !IsVersionedName(aliased, name) || !lookups {
        return false;
      }
      if name !in store.collections {
        store := Created(store, name, aliased.dimensions, reply);
      }
      ok := load && name in store.collections && Validates(aliased, store.collections[name]);
    }

    /** `upsert_versioned_points`: every vector is checked before any is written. */
    method UpsertPoints(name: string, points: seq<(nat, Vector)>, written: nat, reported: bool) returns (ok: bool)
      modifies this
      ensures (store, ok) == Apply(old(store), aliased, Upsert(name, points, written, reported))
      ensures store.alias == old(store.alias) && store.collections.Keys == old(store.collections).Keys
      ensures !IsVersionedName(aliased, name) || !AllVectors(aliased, points) ==> !ok && store == old(store)
      ensures forall m | m in old(store.collections) && m != name :: store.collections[m] == old(store.collections)[m]
      ensures IsVersionedName(aliased, name) && AllVectors(aliased, points) && name in old(store.collections) ==>
                var before, after := old(store.collections)[name], store.collections[name];
                && after.red == before.red && after.vectors == before.vectors
                && IsUpserted(before.points, after.points, if written < |points| then points[..written] else points)
      ensures IsVersionedName(aliased, name) && AllVectors(aliased, points) ==>
                (ok <==> points == [] || (name in old(store.collections) && written >= |points| && reported))
    {
      if !IsVersionedName(aliased, name) {
        return false;
      }
      for i := 0 to |points|
        invariant AllVectors(aliased, points[..i]) && store == old(store)
      {
        if !IsVector(aliased, points[i].1) {
          return false;
        }
      }
      assert points[..|points|] == points;
      if points == [] {
        return true;
      }
      if name !in store.collections {
        return false;
      }
      var n := if written < |points| then written else |points|;
      var c := store.collections[name];
      WrittenIsUpserted(c.points, points[..n]);
      store := store.(collections := store.collections[name := c.(points := Written(c.points, points[..n]))]);
      ok := n == |points| && reported;
    }

    /** `point_alias`: the alias moves, if at all, to the named collection after it validated. */
    method PointAlias(name: string, lookups: bool, reply: Reply) returns (ok: bool)
      modifies this
      ensures store.collections == old(store.collections)
      ensures ok || store.alias != old(store.alias) ==>
                && IsVersionedName(aliased, name) && name in store.collections
                && !store.collections[name].red && store.collections[name].vectors == Some((aliased.dimensions, Cosine))
      ensures IsVersionedName(aliased, name) && lookups && name in store.collections && Validates(aliased, store.collections[name]) ==>
                ok == reply.reported && store.alias == if reply.applied then Some(name) else old(store.alias)
      ensures store.alias != old(store.alias) ==> store.alias == Some(name)
      ensures (store, ok) == Apply(old(store), aliased, Point(name, lookups, reply))
    {
      if !IsVersionedName(aliased, name) || !lookups || name !in store.collections {
        return false;
      }
      if !Validates(aliased, store.collections[name]) {
        return false;
      }
      if reply.applied {
        store := store.(alias := Some(name));
      }
      ok := reply.reported;
    }

    /** `drop_versioned_collection`: at most the named versioned collection goes, never the one the
        alias names. */
    method DropCollection(name: string, lookups: bool, reply: Reply) returns (ok: bool)
      modifies this
      ensures store.alias == old(store.alias) && Extends(old(store), store, name)
      ensures !IsVersionedName(aliased, name) || old(store.alias) == Some(name) ==> !ok && store == old(store)
      ensures IsVersionedName(aliased, name) && lookups && old(store.alias) != Some(name) ==>
                && (name in store.collections <==> name in old(store.collections) && !reply.applied)
                && ok == (name !in old(store.collections) || reply.reported)
      ensures (store, ok) == Apply(old(store), aliased, Drop(name, lookups, reply))
    {
      if !IsVersionedName(aliased, name) || !lookups || store.alias == Some(name) {
        return false;
      }
      ok := true;
      if name in store.collections {
        if reply.applied {
          store := store.(collections := store.collections - {name});
        }
        ok := reply.reported;
      }
    }

    /** `provision_collection`: an existing collection is only validated, whatever the store answers. */
    method ProvisionCollection(name: string, dimensions: nat, lookups: bool, reply: Reply, load: bool) returns (ok: bool)
      modifies this
      ensures store.alias == old(store.alias) && Extends(store, old(store), name)
      ensures name in old(store.collections) ==>
                store == old(store) && ok == (lookups && load && Validates(Aliased("", dimensions), store.collections[name]))
      ensures name !in old(store.collections) ==>
                && (name in store.collections <==> lookups && reply.applied)
                && ok == (lookups && load && reply.applied)
                && (lookups && reply.applied ==> IsEmpty(store.collections[name], dimensions))
      ensures (store, ok) == Apply(old(store), aliased, Provision(name, dimensions, lookups, reply, load))
    {
      if !lookups {
        return false;
      }
      if name !in store.collections {
        store := Created(store, name, dimensions, reply);
      }
      ok := load && name in store.collections && Validates(Aliased("", dimensions), store.collections[name]);
    }
  }

  /** A collection that turned red is not pointed at. */
  lemma RedIsNotPointedAt(st: Store, a: Aliased, name: string, lookups: bool, reply: Reply)
    requires name in st.collections
    ensures var sick := Apply(st, a, Turn(name, true)).0;
            sick.collections[name].red && Apply(sick, a, Point(name, lookups, reply)) == (sick, false)
  {
  }

  // ---------- safety over every sequence of calls ----------

  /** The alias, once set, names an existing versioned collection of the required shape. */
  predicate AliasSafe(st: Store, a: Aliased) {
    st.alias.Some? ==>
      && IsVersionedName(a, st.alias.value)
      && st.alias.value in st.collections
      && st.collections[st.alias.value].vectors == Some((a.dimensions, Cosine))
  }

  /** Versioned collections hold vectors of the required length with finite values only. */
  predicate PointsSafe(st: Store, a: Aliased) {
    forall name | name in st.collections && IsVersionedName(a, name) ::
      forall id | id in st.collections[name].points ::
        var v := st.collections[name].points[id]; |v| == a.dimensions && forall i | 0 <= i < |v| :: v[i].Finite?
  }

  lemma {:induction false} WrittenAreVectors(points: map<nat, Vector>, more: seq<(nat, Vector)>, a: Aliased)
    requires forall id | id in points :: IsVector(a, points[id])
    requires AllVectors(a, more)
    ensures forall id | id in Written(points, more) :: IsVector(a, Written(points, more)[id])
    decreases more
  {
    if more != [] {
      WrittenAreVectors(points[more[0].0 := more[0].1], more[1..], a);
    }
  }

  lemma ApplyKeepsAlias(st: Store, a: Aliased, call: Call)
    requires AliasSafe(st, a)
    ensures AliasSafe(Apply(st, a, call).0, a)
    ensures st.alias.Some? ==> Apply(st, a, call).0.alias.Some?
  {
  }

  lemma ApplyKeepsPoints(st: Store, a: Aliased, call: Call)
    requires PointsSafe(st, a)
    ensures PointsSafe(Apply(st, a, call).0, a)
  {
    if call.Upsert? && call.name in st.collections && IsVersionedName(a, call.name) && AllVectors(a, call.points) {
      var n := if call.written < |call.points| then call.written else |call.points|;
      WrittenAreVectors(st.collections[call.name].points, call.points[..n], a);
    }
  }

  /** `validate_alias_target`, as run at start-up. */
  predicate AliasValidates(st: Store, a: Aliased) {
    st.alias.Some? ==>
      IsVersionedName(a, st.alias.value) && st.alias.value in st.collections && Validates(a, st.collections[st.alias.value])
  }

  lemma {:induction false} CallsKeepSafety(st: Store, a: Aliased, calls: seq<Call>)
    requires AliasSafe(st, a) && PointsSafe(st, a)
    ensures var after := ApplyAll(st, a, calls);
            AliasSafe(after, a) && PointsSafe(after, a) && (st.alias.Some? ==> after.alias.Some?)
    decreases calls
  {
    if calls != [] {
      ApplyKeepsAlias(st, a, calls[0]);
      ApplyKeepsPoints(st, a, calls[0]);
      CallsKeepSafety(Apply(st, a, calls[0]).0, a, calls[1..]);
    }
  }

  /** From a store that passes the start-up check, after every sequence of calls and failures, the
      alias still names a usable collection and every vector has the right form. */
  lemma ServedCollectionIsAlwaysUsable(st: Store, a: Aliased, calls: seq<Call>)
    requires AliasValidates(st, a) && PointsSafe(st, a)
    ensures var after := ApplyAll(st, a, calls);
            AliasSafe(after, a) && PointsSafe(after, a) && (st.alias.Some? ==> after.alias.Some?)
  {
    CallsKeepSafety(st, a, calls);
  }

  // ---------- interleaved calls ----------

  /** Calls of several clients, one store access at a time. A drop looks at the alias and deletes
      later; a re-point validates and sets the alias later. A deletion may take along an alias that
      names the collection. */
  datatype Access =
    | DropLook(name: string)
    | DropDelete(name: string, applied: bool, withAlias: bool)
    | PointLook(name: string)
    | PointSet(name: string, applied: bool)
    | Serial(call: Call)

  /** The store, and one entry for each drop and each re-point in flight. */
  datatype World = World(st: Store, dropping: multiset<string>, pointing: multiset<string>)

  predicate Enabled(w: World, a: Aliased, x: Access) {
    match x
    case DropLook(name) => IsVersionedName(a, name) && w.st.alias != Some(name)
    case DropDelete(name, _, _) => name in w.dropping
    case PointLook(name) => IsVersionedName(a, name) && name in w.st.collections && Validates(a, w.st.collections[name])
    case PointSet(name, _) => name in w.pointing
    case Serial(call) => !call.Point? && !call.Drop?
  }

  function Deleted(st: Store, name: string, withAlias: bool): Store {
    Store(st.collections - {name}, if withAlias && st.alias == Some(name) then None else st.alias)
  }

  function Next(w: World, a: Aliased, x: Access): World {
    match x
    case DropLook(name) => w.(dropping := w.dropping + multiset{name})
    case DropDelete(name, applied, withAlias) =>
      World(if applied then Deleted(w.st, name, withAlias) else w.st, w.dropping - multiset{name}, w.pointing)
    case PointLook(name) => w.(pointing := w.pointing + multiset{name})
    case PointSet(name, applied) =>
      World(if applied then w.st.(alias := Some(name)) else w.st, w.dropping, w.pointing - multiset{name})
    case Serial(call) => w.(st := Apply(w.st, a, call).0)
  }

  /** Without anything in between, the accesses of a call are the call. */
  lemma UndisturbedPoint(w: World, a: Aliased, name: string, reply: Reply)
    requires Enabled(w, a, PointLook(name))
    ensures Next(Next(w, a, PointLook(name)), a, PointSet(name, reply.applied))
         == w.(st := Apply(w.st, a, Point(name, true, reply)).0)
  {
    assert w.pointing + multiset{name} - multiset{name} == w.pointing;
  }

  lemma UndisturbedDrop(w: World, a: Aliased, name: string, reply: Reply, withAlias: bool)
    requires Enabled(w, a, DropLook(name))
    ensures Next(Next(w, a, DropLook(name)), a, DropDelete(name, reply.applied, withAlias))
         == w.(st := Apply(w.st, a, Drop(name, true, reply)).0)
  {
    assert w.dropping + multiset{name} - multiset{name} == w.dropping;
    if name !in w.st.collections { assert w.st.collections - {name} == w.st.collections; }
  }

  /** The access starts no drop of a name that is being pointed at, and no re-point to a name that
      is being dropped. */
  predicate Apart(w: World, x: Access) {
    && (x.DropLook? ==> x.name !in w.pointing)
    && (x.PointLook? ==> x.name !in w.dropping)
  }

  predicate LegalTrace(w: World, a: Aliased, xs: seq<Access>)
    decreases xs
  {
    xs == [] || (Enabled(w, a, xs[0]) && Apart(w, xs[0]) && LegalTrace(Next(w, a, xs[0]), a, xs[1..]))
  }

  function End(w: World, a: Aliased, xs: seq<Access>): World
    decreases xs
  {
    if xs == [] then w else End(Next(w, a, xs[0]), a, xs[1..])
  }

  predicate Usable(st: Store, a: Aliased, name: string) {
    IsVersionedName(a, name) && name in st.collections && HasShape(a, st.collections[name])
  }

  predicate WorldSafe(w: World, a: Aliased) {
    && AliasSafe(w.st, a)
    && (w.st.alias.Some? ==> w.st.alias.value !in w.dropping)
    && (forall name | name in w.pointing :: name !in w.dropping && Usable(w.st, a, name))
  }

  lemma LookKeepsSafe(w: World, a: Aliased, x: Access)
    requires x.DropLook? || x.PointLook?
    requires WorldSafe(w, a) && Enabled(w, a, x) && Apart(w, x)
    ensures WorldSafe(Next(w, a, x), a)
  {
    var w' := Next(w, a, x);
    assert forall n :: n in w'.dropping <==> n in w.dropping || x == DropLook(n);
    assert forall n :: n in w'.pointing <==> n in w.pointing || x == PointLook(n);
  }

  lemma DeleteKeepsSafe(w: World, a: Aliased, x: Access)
    requires x.DropDelete? && WorldSafe(w, a) && Enabled(w, a, x)
    ensures WorldSafe(Next(w, a, x), a) && Next(w, a, x).st.alias == w.st.alias
  {
    var w' := Next(w, a, x);
    assert forall n | n in w'.dropping :: n in w.dropping;
    forall n | n in w.pointing
      ensures Usable(w'.st, a, n)
    {
      assert n != x.name;
    }
  }

  lemma SetKeepsSafe(w: World, a: Aliased, x: Access)
    requires x.PointSet? && WorldSafe(w, a) && Enabled(w, a, x)
    ensures WorldSafe(Next(w, a, x), a)
  {
    assert Usable(w.st, a, x.name) && x.name !in w.dropping;
    assert forall n | n in Next(w, a, x).pointing :: n in w.pointing;
  }

  lemma SerialKeepsUsable(st: Store, a: Aliased, call: Call, name: string)
    requires !call.Drop? && Usable(st, a, name)
    ensures Usable(Apply(st, a, call).0, a, name)
  {
  }

  lemma SerialKeepsSafe(w: World, a: Aliased, x: Access)
    requires x.Serial? && WorldSafe(w, a) && Enabled(w, a, x)
    ensures WorldSafe(Next(w, a, x), a) && Next(w, a, x).st.alias == w.st.alias
  {
    forall name | name in w.pointing
      ensures Usable(Next(w, a, x).st, a, name)
    {
      SerialKeepsUsable(w.st, a, x.call, name);
    }
    if w.st.alias.Some? { SerialKeepsUsable(w.st, a, x.call, w.st.alias.value); }
  }

  lemma NextKeepsSafe(w: World, a: Aliased, x: Access)
    requires WorldSafe(w, a) && Enabled(w, a, x) && Apart(w, x)
    ensures WorldSafe(Next(w, a, x), a)
    ensures w.st.alias.Some? ==> Next(w, a, x).st.alias.Some?
  {
    match x
    case DropLook(_) => LookKeepsSafe(w, a, x);
    case PointLook(_) => LookKeepsSafe(w, a, x);
    case DropDelete(_, _, _) => DeleteKeepsSafe(w, a, x);
    case PointSet(_, _) => SetKeepsSafe(w, a, x);
    case Serial(_) => SerialKeepsSafe(w, a, x);
  }

  lemma NextKeepsPoints(w: World, a: Aliased, x: Access)
    requires PointsSafe(w.st, a)
    ensures PointsSafe(Next(w, a, x).st, a)
  {
    if x.Serial? { ApplyKeepsPoints(w.st, a, x.call); }
  }

  /** Any interleaving of any number of calls keeps the alias set and usable as long as no drop and
      no re-point of the same collection overlap, and keeps every vector well formed. */
  lemma {:induction false} ApartTracesAreSafe(w: World, a: Aliased, xs: seq<Access>)
    requires WorldSafe(w, a) && LegalTrace(w, a, xs)
    ensures WorldSafe(End(w, a, xs), a)
    ensures w.st.alias.Some? ==> End(w, a, xs).st.alias.Some?
    ensures PointsSafe(w.st, a) ==> PointsSafe(End(w, a, xs).st, a)
    decreases xs
  {
    if xs != [] {
      NextKeepsSafe(w, a, xs[0]);
      if PointsSafe(w.st, a) { NextKeepsPoints(w, a, xs[0]); }
      ApartTracesAreSafe(Next(w, a, xs[0]), a, xs[1..]);
    }
  }

  lemma OneStep(w: World, a: Aliased, x: Access)
    ensures End(w, a, [x]) == Next(w, a, x)
    ensures LegalTrace(w, a, [x]) <==> Enabled(w, a, x) && Apart(w, x)
  {
    assert [x][1..] == [];
    assert End(Next(w, a, x), a, []) == Next(w, a, x) && LegalTrace(Next(w, a, x), a, []);
  }

  lemma TwoSteps(w: World, a: Aliased, x: Access, y: Access)
    requires Enabled(w, a, x) && Apart(w, x) && Enabled(Next(w, a, x), a, y) && Apart(Next(w, a, x), y)
    ensures LegalTrace(w, a, [x, y]) && End(w, a, [x, y]) == Next(Next(w, a, x), a, y)
  {
    assert [x, y][1..] == [y];
    OneStep(Next(w, a, x), a, y);
  }

  /** Once a drop and a re-point of one collection overlap, the two calls may go on so that the
      collection is gone right after the alias was set to it. */
  lemma OverlapLosesAlias(w: World, a: Aliased, x: Access, withAlias: bool)
    requires Enabled(w, a, x) && !Apart(w, x)
    ensures var w' := Next(w, a, x);
            var xs := [PointSet(x.name, true), DropDelete(x.name, true, withAlias)];
            && LegalTrace(w', a, xs) && Next(w', a, xs[0]).st.alias == Some(x.name)
            && x.name !in End(w', a, xs).st.collections
            && End(w', a, xs).st.alias == if withAlias then None else Some(x.name)
  {
    var w' := Next(w, a, x);
    assert x.name in w'.dropping && x.name in w'.pointing;
    TwoSteps(w', a, PointSet(x.name, true), DropDelete(x.name, true, withAlias));
  }

  /** So overlap is the exact condition: an access may start if and only if no legal continuation
      leaves the alias unusable. */
  lemma ApartIsExact(w: World, a: Aliased, x: Access)
    requires WorldSafe(w, a) && Enabled(w, a, x)
    ensures Apart(w, x) <==>
              forall xs | LegalTrace(Next(w, a, x), a, xs) :: AliasSafe(End(Next(w, a, x), a, xs).st, a)
  {
    var w' := Next(w, a, x);
    if Apart(w, x) {
      NextKeepsSafe(w, a, x);
      forall xs | LegalTrace(w', a, xs)
        ensures AliasSafe(End(w', a, xs).st, a)
      {
        ApartTracesAreSafe(w', a, xs);
      }
    } else {
      OverlapLosesAlias(w, a, x, false);
      var xs := [PointSet(x.name, true), DropDelete(x.name, true, false)];
      assert LegalTrace(w', a, xs) && !AliasSafe(End(w', a, xs).st, a);
    }
  }
}
