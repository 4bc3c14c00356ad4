/** The order of tables: all that refer to nothing left, by name, layer by layer; as declared when that is stuck. */
module Topo {
  import opened Options
  import opened SqlDdl
  import opened Sorting

  /** Comparison of names. */
  type Order = Less<string>

  function ByName(less: Order): Less<Entity> {
    (a: Entity, b: Entity) => less(a.name, b.name)
  }

  function References(e: Entity): set<string> {
    set f | f in e.fields && f.db.references.Some? :: f.db.references.value.entity
  }

  function Names(s: seq<Entity>): set<string> {
    set e | e in s :: e.name
  }

  /** The entities among `s` that reference none of `names`, or those that do. */
  function Select(s: seq<Entity>, names: set<string>, free: bool): seq<Entity>
    decreases |s|
  {
    if s == [] then []
    else (if (References(s[0]) !! names) == free then [s[0]] else []) + Select(s[1..], names, free)
  }

  lemma {:induction false} SelectSplits(s: seq<Entity>, names: set<string>)
    ensures multiset(Select(s, names, true)) + multiset(Select(s, names, false)) == multiset(s)
    ensures |Select(s, names, true)| + |Select(s, names, false)| == |s|
    decreases |s|
  {
    if s == [] {
    } else {
      SelectSplits(s[1..], names);
      HeadCounted(s);
      var free, held := Select(s[1..], names, true), Select(s[1..], names, false);
      if References(s[0]) !! names {
        assert Select(s, names, true) == [s[0]] + free && Select(s, names, false) == held;
        Counted(s[0], free);
      } else {
        assert Select(s, names, true) == free && Select(s, names, false) == [s[0]] + held;
        Counted(s[0], held);
      }
    }
  }

  /** Layer by layer; `None` when some entities remain and each of them references another that remains. */
  function Layers(s: seq<Entity>, less: Order): Option<seq<Entity>>
    decreases |s|
  {
    if s == [] then Some([])
    else
      var free := Select(s, Names(s), true);
      if free == [] then None
      else
        SelectSplits(s, Names(s));
        match Layers(Select(s, Names(s), false), less)
        case None => None
        case Some(rest) => Some(Sort(free, ByName(less)) + rest)
  }

  method TopologicalEntities(entities: seq<Entity>, less: Order) returns (result: seq<Entity>)
    ensures result == match Layers(entities, less) case Some(order) => order case None => entities
  {
    var remaining := entities;
    result := [];
    assert Layers(entities, less).Some? ==> [] + Layers(entities, less).value == Layers(entities, less).value;
    while remaining != []
      invariant Layers(entities, less) ==
        match Layers(remaining, less) case Some(rest) => Some(result + rest) case None => None
      decreases |remaining|
    {
      var ready := Select(remaining, Names(remaining), true);
      if ready == [] {
        return entities;
      }
      SelectSplits(remaining, Names(remaining));
      ready := Sort(ready, ByName(less));
      ghost var before := result;
      var rest := Select(remaining, Names(remaining), false);
      assert Layers(rest, less).Some? ==>
        before + (ready + Layers(rest, less).value) == (before + ready) + Layers(rest, less).value;
      result := result + ready;
      remaining := rest;
    }
    assert result + [] == result;
  }

  // ---------------------------------------------------------------------
  // A permutation
  // ---------------------------------------------------------------------

  /** Every entity is placed exactly once. */
  lemma {:induction false} LayersPermute(s: seq<Entity>, less: Order)
    requires Layers(s, less).Some?
    ensures multiset(Layers(s, less).value) == multiset(s)
    decreases |s|
  {
    if s == [] {
    } else {
      SelectSplits(s, Names(s));
      SortKeeps(Select(s, Names(s), true), ByName(less));
      LayersPermute(Select(s, Names(s), false), less);
    }
  }

  // ---------------------------------------------------------------------
  // References come first
  // ---------------------------------------------------------------------

  lemma SameNames(a: seq<Entity>, b: seq<Entity>)
    requires multiset(a) == multiset(b)
    ensures Names(a) == Names(b) && forall e :: e in a <==> e in b
  {
    SameElements(a, b);
  }

  lemma {:induction false} SelectMeans(s: seq<Entity>, names: set<string>, free: bool)
    ensures forall e :: e in Select(s, names, free) <==> e in s && (References(e) !! names) == free
    decreases |s|
  {
    if s == [] {
    } else {
      SelectMeans(s[1..], names, free);
    }
  }

  /** Everything `order[i]` references within `names` is named before position `i`. */
  ghost predicate ReferencesFirst(order: seq<Entity>, names: set<string>) {
    forall i :: 0 <= i < |order| ==> References(order[i]) * names <= Names(order[..i])
  }

  lemma LaterReferences(s: seq<Entity>, sorted: seq<Entity>, rest: seq<Entity>, k: nat, held: seq<Entity>)
    requires k < |rest| && ReferencesFirst(rest, Names(held))
    requires forall e :: e in s ==> e in held || e.name in Names(sorted)
    ensures References(rest[k]) * Names(s) <= Names((sorted + rest)[..|sorted| + k])
  {
    var prefix := (sorted + rest)[..|sorted| + k];
    assert prefix == sorted + rest[..k];
    forall n | n in References(rest[k]) * Names(s) ensures n in Names(prefix) {
      var e :| e in s && e.name == n;
      if n in Names(sorted) {
        var d :| d in sorted && d.name == n;
        assert d in prefix;
      } else {
        assert n in Names(held);
        assert n in Names(rest[..k]);
        var d :| d in rest[..k] && d.name == n;
        assert d in prefix;
      }
    }
  }

  lemma LayerOnTop(s: seq<Entity>, less: Order, rest: seq<Entity>)
    requires ReferencesFirst(rest, Names(Select(s, Names(s), false)))
    ensures ReferencesFirst(Sort(Select(s, Names(s), true), ByName(less)) + rest, Names(s))
  {
    var names := Names(s);
    var free, held := Select(s, names, true), Select(s, names, false);
    var sorted := Sort(free, ByName(less));
    SelectMeans(s, names, true);
    SelectMeans(s, names, false);
    SortKeeps(free, ByName(less));
    SameNames(sorted, free);
    var order := sorted + rest;
    forall i | 0 <= i < |order| ensures References(order[i]) * names <= Names(order[..i]) {
      if i < |sorted| {
        assert order[i] in multiset(sorted);
        assert order[i] in free;
      } else {
        assert order[..|sorted| + (i - |sorted|)] == order[..i];
        LaterReferences(s, sorted, rest, i - |sorted|, held);
      }
    }
  }

  lemma {:induction false} LayersOrder(s: seq<Entity>, less: Order)
    requires Layers(s, less).Some?
    ensures ReferencesFirst(Layers(s, less).value, Names(s))
    decreases |s|
  {
    if s == [] {
    } else {
      var held := Select(s, Names(s), false);
      SelectSplits(s, Names(s));
      LayersOrder(held, less);
      LayerOnTop(s, less, Layers(held, less).value);
    }
  }

  // ---------------------------------------------------------------------
  // Getting stuck means a cycle
  // ---------------------------------------------------------------------

  predicate Refers(a: Entity, b: Entity) {
    b.name in References(a)
  }

  /** `path` goes from entity to referenced entity, inside `s`. */
  ghost predicate Path(s: seq<Entity>, path: seq<Entity>) {
    && path != [] && (forall i :: 0 <= i < |path| ==> path[i] in s)
    && forall i :: 0 <= i < |path| - 1 ==> Refers(path[i], path[i + 1])
  }

  ghost predicate Cycle(s: seq<Entity>, path: seq<Entity>) {
    Path(s, path) && Refers(path[|path| - 1], path[0])
  }

  ghost predicate HasCycle(s: seq<Entity>) {
    exists path :: Cycle(s, path)
  }

  ghost predicate HasNext(s: seq<Entity>, e: Entity) {
    exists f :: f in s && Refers(e, f)
  }

  ghost predicate DistinctNames(s: seq<Entity>) {
    && (forall e :: e in multiset(s) ==> multiset(s)[e] == 1)
    && forall e, f :: e in s && f in s && e.name == f.name ==> e == f
  }

  lemma LoopIsCycle(s: seq<Entity>, path: seq<Entity>, i: nat)
    requires Path(s, path) && i < |path| && Refers(path[|path| - 1], path[i])
    ensures Cycle(s, path[i..])
  {
    var loop := path[i..];
    forall k | 0 <= k < |loop| - 1 ensures Refers(loop[k], loop[k + 1]) {
      assert loop[k] == path[i + k] && loop[k + 1] == path[i + k + 1];
    }
  }

  lemma PathGrows(s: seq<Entity>, path: seq<Entity>, f: Entity)
    requires Path(s, path) && f in s && Refers(path[|path| - 1], f)
    ensures Path(s, path + [f])
  {
    var longer := path + [f];
    forall i | 0 <= i < |longer| - 1 ensures Refers(longer[i], longer[i + 1]) {
      if i == |path| - 1 {
        assert longer[i] == path[|path| - 1] && longer[i + 1] == f;
      } else {
        assert longer[i] == path[i] && longer[i + 1] == path[i + 1];
      }
    }
  }

  predicate Covers(s: seq<Entity>, path: seq<Entity>, unseen: set<Entity>) {
    forall e :: e in s ==> e in path || e in unseen
  }

  lemma CoverShifts(s: seq<Entity>, path: seq<Entity>, unseen: set<Entity>, f: Entity)
    requires Covers(s, path, unseen)
    ensures Covers(s, path + [f], unseen - {f})
  {
    forall e | e in s ensures e in path + [f] || e in unseen - {f} {
      assert (path + [f])[|path|] == f;
    }
  }

  ghost predicate AllHaveNext(s: seq<Entity>) {
    forall e :: e in s ==> HasNext(s, e)
  }

  lemma NextOf(s: seq<Entity>, e: Entity) returns (f: Entity)
    requires AllHaveNext(s) && e in s
    ensures f in s && Refers(e, f)
  {
    assert HasNext(s, e);
    f :| f in s && Refers(e, f);
  }

  lemma BackOnPath(s: seq<Entity>, path: seq<Entity>, f: Entity)
    requires Path(s, path) && f in path && Refers(path[|path| - 1], f)
    ensures HasCycle(s)
  {
    var i :| 0 <= i < |path| && path[i] == f;
    LoopIsCycle(s, path, i);
  }

  /** When every entity references another one, following references must come back to the visited ones. */
  lemma {:induction false} WalkCloses(s: seq<Entity>, path: seq<Entity>, unseen: set<Entity>)
    requires Path(s, path) && Covers(s, path, unseen) && AllHaveNext(s)
    ensures HasCycle(s)
    decreases unseen
  {
    var f := NextOf(s, path[|path| - 1]);
    if f in path {
      BackOnPath(s, path, f);
    } else {
      PathGrows(s, path, f);
      CoverShifts(s, path, unseen, f);
      WalkCloses(s, path + [f], unseen - {f});
    }
  }

  lemma BlockedHasNext(s: seq<Entity>, e: Entity)
    requires e in s && Select(s, Names(s), true) == []
    ensures HasNext(s, e)
  {
    SelectMeans(s, Names(s), true);
    assert e !in Select(s, Names(s), true);
    var n :| n in References(e) && n in Names(s);
    var f :| f in s && f.name == n;
    assert Refers(e, f);
  }

  lemma {:induction false} StuckHasCycle(s: seq<Entity>, less: Order)
    requires Layers(s, less).None?
    ensures HasCycle(s)
    decreases |s|
  {
    if Select(s, Names(s), true) == [] {
      assert AllHaveNext(s) by {
        forall e | e in s ensures HasNext(s, e) {
          BlockedHasNext(s, e);
        }
      }
      WalkCloses(s, [s[0]], set e | e in s);
    } else {
      SelectSplits(s, Names(s));
      SelectMeans(s, Names(s), false);
      StuckHasCycle(Select(s, Names(s), false), less);
      var path :| Cycle(Select(s, Names(s), false), path);
      assert Cycle(s, path);
    }
  }

  ghost function Position(order: seq<Entity>, e: Entity): (p: int)
    ensures e in order ==> 0 <= p < |order| && order[p] == e
  {
    if e in order then var p :| 0 <= p < |order| && order[p] == e; p else -1
  }

  /** Going round a cycle, positions in a reference-first order would only fall. */
  lemma {:induction false} PositionsFall(order: seq<Entity>, s: seq<Entity>, path: seq<Entity>, k: nat) returns (p: nat)
    requires ReferencesFirst(order, Names(s)) && multiset(order) == multiset(s) && DistinctNames(s)
    requires Cycle(s, path) && k <= |path|
    ensures p < |order| && order[p] == path[if k < |path| then k else 0]
    ensures p + k <= Position(order, path[0])
  {
    SameNames(order, s);
    if k == 0 {
      assert path[0] in multiset(order);
      p := Position(order, path[0]);
    } else {
      var q := PositionsFall(order, s, path, k - 1);
      var e := path[if k < |path| then k else 0];
      assert e in s && Refers(path[k - 1], e) && e.name in Names(s);
      assert e.name in Names(order[..q]);
      var f :| f in order[..q] && f.name == e.name;
      assert f in multiset(order);
      assert f == e;
      p :| 0 <= p < q && order[..q][p] == f;
    }
  }

  lemma SamePlace(order: seq<Entity>, s: seq<Entity>, p: nat, q: nat)
    requires multiset(order) == multiset(s) && DistinctNames(s)
    requires p < |order| && q < |order| && order[p] == order[q]
    ensures p == q
  {
    if p < q {
      OccursTwice(order, p, q);
    } else if q < p {
      OccursTwice(order, q, p);
    }
  }

  /** The declaration order is the fallback exactly when the references of some entities run in a circle. */
  lemma FallbackExactlyOnCycles(s: seq<Entity>, less: Order)
    requires DistinctNames(s)
    ensures Layers(s, less).None? <==> HasCycle(s)
  {
    if Layers(s, less).None? {
      StuckHasCycle(s, less);
    } else if path :| Cycle(s, path) {
      LayersPermute(s, less);
      LayersOrder(s, less);
      var order := Layers(s, less).value;
      var p := PositionsFall(order, s, path, |path|);
      var q := PositionsFall(order, s, path, 0);
      SamePlace(order, s, p, Position(order, path[0]));
      assert false;
    }
  }

  // ---------------------------------------------------------------------
  // Declaration order does not matter
  // ---------------------------------------------------------------------

  lemma {:induction false} SelectCounts(s: seq<Entity>, names: set<string>, free: bool, e: Entity)
    ensures multiset(Select(s, names, free))[e] == if (References(e) !! names) == free then multiset(s)[e] else 0
    decreases |s|
  {
    if s == [] {
    } else {
      SelectCounts(s[1..], names, free, e);
      HeadCounted(s);
      if (References(s[0]) !! names) == free {
        Counted(s[0], Select(s[1..], names, free));
      }
    }
  }

  lemma SelectPermutes(a: seq<Entity>, b: seq<Entity>, names: set<string>, free: bool)
    requires multiset(a) == multiset(b)
    ensures multiset(Select(a, names, free)) == multiset(Select(b, names, free))
  {
    forall e ensures multiset(Select(a, names, free))[e] == multiset(Select(b, names, free))[e] {
      SelectCounts(a, names, free, e);
      SelectCounts(b, names, free, e);
    }
  }

  lemma SelectDistinct(s: seq<Entity>, names: set<string>, free: bool)
    requires DistinctNames(s)
    ensures DistinctNames(Select(s, names, free))
  {
    var part := Select(s, names, free);
    SelectMeans(s, names, free);
    forall e | e in multiset(part) ensures multiset(part)[e] == 1 {
      SelectCounts(s, names, free, e);
      assert e in part;
      assert e in multiset(s);
    }
  }

  lemma NamesCompare(s: seq<Entity>, less: Order)
    requires StrictTotal(less) && DistinctNames(s)
    ensures StrictOrder(ByName(less)) && Comparable(s, ByName(less))
  {
    var order := ByName(less);
    forall a: Entity ensures !order(a, a) {
      assert !less(a.name, a.name);
    }
    forall a: Entity, b: Entity, c: Entity | order(a, b) && order(b, c) ensures order(a, c) {
      assert less(a.name, b.name) && less(b.name, c.name);
    }
    forall x, y | x in s && y in s ensures x == y || order(x, y) || order(y, x) {
      assert x.name == y.name || less(x.name, y.name) || less(y.name, x.name);
    }
  }

  /** However the entities are declared, the layered order is the same. */
  lemma {:induction false} DeclarationOrderIrrelevant(a: seq<Entity>, b: seq<Entity>, less: Order)
    requires StrictTotal(less) && DistinctNames(a) && multiset(a) == multiset(b)
    ensures Layers(a, less) == Layers(b, less)
    decreases |a|
  {
    SameNames(a, b);
    assert |a| == |multiset(a)| && |b| == |multiset(b)|;
    var names := Names(a);
    SelectPermutes(a, b, names, true);
    SelectPermutes(a, b, names, false);
    var freeA, freeB := Select(a, names, true), Select(b, names, true);
    assert |freeA| == |multiset(freeA)| && |freeB| == |multiset(freeB)|;
    if a != [] && freeA != [] {
      SelectSplits(a, names);
      SelectDistinct(a, names, true);
      SelectDistinct(a, names, false);
      NamesCompare(freeA, less);
      SortDetermined(freeA, freeB, ByName(less));
      DeclarationOrderIrrelevant(Select(a, names, false), Select(b, names, false), less);
    }
  }

  // ---------------------------------------------------------------------
  // Which order it is
  // ---------------------------------------------------------------------

  /** A field of `a` refers to the entity named as `b` is. */
  predicate PointsTo(a: Entity, b: Entity) {
    exists i :: 0 <= i < |a.fields|
      && a.fields[i].db.references.Some? && a.fields[i].db.references.value.entity == b.name
  }

  lemma PointsToExactly(a: Entity, b: Entity)
    ensures PointsTo(a, b) <==> Refers(a, b)
  {
    if Refers(a, b) {
      var f :| f in a.fields && f.db.references.Some? && f.db.references.value.entity == b.name;
      var i :| 0 <= i < |a.fields| && a.fields[i] == f;
    }
  }

  type Relation = (Entity, Entity) -> bool

  /** Ascending by level, and by name within a level. */
  predicate Ascending(order: seq<Entity>, levels: seq<nat>, less: Order) {
    && |levels| == |order|
    && forall i, j :: 0 <= i < j < |order| ==>
      levels[i] < levels[j] || (levels[i] == levels[j] && less(order[i].name, order[j].name))
  }

  predicate Below(order: seq<Entity>, levels: seq<nat>, i: nat, refers: Relation)
    requires |levels| == |order| && i < |order|
  {
    exists j :: 0 <= j < |order| && refers(order[i], order[j]) && levels[j] + 1 == levels[i]
  }

  /** An entity is one level above the highest it refers to, and at level 0 when it refers to none. */
  predicate LevelsOf(order: seq<Entity>, levels: seq<nat>, refers: Relation) {
    && |levels| == |order|
    && (forall i, j {:trigger refers(order[i], order[j])} ::
          0 <= i < |order| && 0 <= j < |order| && refers(order[i], order[j]) ==> levels[j] < levels[i])
    && forall i {:trigger Below(order, levels, i, refers)} ::
         0 <= i < |order| && levels[i] > 0 ==> Below(order, levels, i, refers)
  }

  function Raised(levels: seq<nat>): seq<nat> {
    seq(|levels|, i requires 0 <= i < |levels| => levels[i] + 1)
  }

  function Ground(n: nat): seq<nat> {
    seq(n, i => 0)
  }

  lemma LayerAscends(sorted: seq<Entity>, rest: seq<Entity>, levels: seq<nat>, less: Order)
    requires Sorted(sorted, ByName(less)) && Ascending(rest, levels, less)
    ensures Ascending(sorted + rest, Ground(|sorted|) + Raised(levels), less)
  {
    var order, all := sorted + rest, Ground(|sorted|) + Raised(levels);
    forall i, j | 0 <= i < j < |order|
      ensures all[i] < all[j] || (all[i] == all[j] && less(order[i].name, order[j].name)) {
      if j < |sorted| {
        assert ByName(less)(sorted[i], sorted[j]);
      } else if i >= |sorted| {
        assert order[i] == rest[i - |sorted|] && order[j] == rest[j - |sorted|];
      }
    }
  }

  predicate Reaches(e: Entity, order: seq<Entity>, refers: Relation) {
    exists j :: 0 <= j < |order| && refers(e, order[j])
  }

  /** No entity of `sorted` refers into the order, and every one of `rest` does. */
  predicate LayerUnder(sorted: seq<Entity>, rest: seq<Entity>, refers: Relation) {
    var order := sorted + rest;
    && (forall i {:trigger Reaches(sorted[i], order, refers)} :: 0 <= i < |sorted| ==>
          !Reaches(sorted[i], order, refers))
    && forall i {:trigger Reaches(rest[i], order, refers)} :: 0 <= i < |rest| ==> Reaches(rest[i], order, refers)
  }

  lemma BelowRaised(sorted: seq<Entity>, rest: seq<Entity>, levels: seq<nat>, k: nat, refers: Relation)
    requires |levels| == |rest| && k < |rest| && Below(rest, levels, k, refers)
    ensures Below(sorted + rest, Ground(|sorted|) + Raised(levels), |sorted| + k, refers)
  {
    var j :| 0 <= j < |rest| && refers(rest[k], rest[j]) && levels[j] + 1 == levels[k];
    var order, all := sorted + rest, Ground(|sorted|) + Raised(levels);
    assert order[|sorted| + k] == rest[k] && order[|sorted| + j] == rest[j];
    assert all[|sorted| + k] == levels[k] + 1 && all[|sorted| + j] == levels[j] + 1;
  }

  lemma LevelParts(n: nat, levels: seq<nat>)
    ensures var all := Ground(n) + Raised(levels);
      (forall k :: 0 <= k < n ==> all[k] == 0) && forall k :: n <= k < |all| ==> all[k] == levels[k - n] + 1
  {
  }

  lemma OrderParts(sorted: seq<Entity>, rest: seq<Entity>, k: nat)
    requires k < |sorted + rest|
    ensures (sorted + rest)[k] == if k < |sorted| then sorted[k] else rest[k - |sorted|]
  {
  }

  lemma LayerBelow(sorted: seq<Entity>, rest: seq<Entity>, levels: seq<nat>, k: nat, refers: Relation)
    requires LevelsOf(rest, levels, refers) && k < |rest| && Reaches(rest[k], sorted + rest, refers)
    ensures Below(sorted + rest, Ground(|sorted|) + Raised(levels), |sorted| + k, refers)
  {
    if levels[k] > 0 {
      assert Below(rest, levels, k, refers);
      BelowRaised(sorted, rest, levels, k, refers);
    } else {
      var order := sorted + rest;
      assert forall n :: 0 <= n < |rest| ==> !refers(rest[k], rest[n]);
      var j :| 0 <= j < |order| && refers(rest[k], order[j]);
      OrderParts(sorted, rest, j);
      OrderParts(sorted, rest, |sorted| + k);
      LevelParts(|sorted|, levels);
    }
  }

  lemma LayerRises(sorted: seq<Entity>, rest: seq<Entity>, levels: seq<nat>, i: nat, j: nat, refers: Relation)
    requires LevelsOf(rest, levels, refers) && |sorted| <= i < |sorted + rest| && j < |sorted + rest|
    requires refers((sorted + rest)[i], (sorted + rest)[j])
    ensures (Ground(|sorted|) + Raised(levels))[j] < (Ground(|sorted|) + Raised(levels))[i]
  {
    OrderParts(sorted, rest, i);
    OrderParts(sorted, rest, j);
    LevelParts(|sorted|, levels);
    assert j >= |sorted| ==> refers(rest[i - |sorted|], rest[j - |sorted|]);
  }

  lemma LayerLevels(sorted: seq<Entity>, rest: seq<Entity>, levels: seq<nat>, refers: Relation)
    requires LayerUnder(sorted, rest, refers) && LevelsOf(rest, levels, refers)
    ensures LevelsOf(sorted + rest, Ground(|sorted|) + Raised(levels), refers)
  {
    var order, all := sorted + rest, Ground(|sorted|) + Raised(levels);
    forall i, j | 0 <= i < |order| && 0 <= j < |order| && refers(order[i], order[j]) ensures all[j] < all[i] {
      OrderParts(sorted, rest, i);
      assert Reaches(order[i], order, refers);
      LayerRises(sorted, rest, levels, i, j, refers);
    }
    forall i | 0 <= i < |order| && all[i] > 0 ensures Below(order, all, i, refers) {
      assert Reaches(rest[i - |sorted|], order, refers);
      LayerBelow(sorted, rest, levels, i - |sorted|, refers);
    }
  }

  function Pointing(): Relation {
    (a, b) => PointsTo(a, b)
  }

  lemma FreeReachesNothing(s: seq<Entity>, e: Entity, order: seq<Entity>)
    requires References(e) !! Names(s) && multiset(order) == multiset(s)
    ensures !Reaches(e, order, Pointing())
  {
    SameNames(order, s);
    forall j | 0 <= j < |order| ensures !PointsTo(e, order[j]) {
      PointsToExactly(e, order[j]);
      assert order[j] in order;
    }
  }

  lemma HeldReaches(s: seq<Entity>, e: Entity, order: seq<Entity>)
    requires !(References(e) !! Names(s)) && multiset(order) == multiset(s)
    ensures Reaches(e, order, Pointing())
  {
    SameNames(order, s);
    var n :| n in References(e) && n in Names(order);
    var d :| d in order && d.name == n;
    var j :| 0 <= j < |order| && order[j] == d;
    PointsToExactly(e, order[j]);
    assert Pointing()(e, order[j]);
  }

  lemma FreeIsUnder(s: seq<Entity>, less: Order, rest: seq<Entity>)
    requires multiset(rest) == multiset(Select(s, Names(s), false))
    ensures LayerUnder(Sort(Select(s, Names(s), true), ByName(less)), rest, Pointing())
  {
    var free, held := Select(s, Names(s), true), Select(s, Names(s), false);
    var sorted := Sort(free, ByName(less));
    SelectSplits(s, Names(s));
    SelectMeans(s, Names(s), true);
    SelectMeans(s, Names(s), false);
    SortKeeps(free, ByName(less));
    SameElements(sorted, free);
    SameElements(rest, held);
    forall i | 0 <= i < |sorted| ensures !Reaches(sorted[i], sorted + rest, Pointing()) {
      assert sorted[i] in sorted;
      FreeReachesNothing(s, sorted[i], sorted + rest);
    }
    forall i | 0 <= i < |rest| ensures Reaches(rest[i], sorted + rest, Pointing()) {
      assert rest[i] in rest;
      HeldReaches(s, rest[i], sorted + rest);
    }
  }

  /** The layered order goes by level, and within a level by name. */
  lemma {:induction false} LayersByLevel(s: seq<Entity>, less: Order) returns (levels: seq<nat>)
    requires StrictTotal(less) && DistinctNames(s) && Layers(s, less).Some?
    ensures Ascending(Layers(s, less).value, levels, less)
    ensures LevelsOf(Layers(s, less).value, levels, Pointing())
    decreases |s|
  {
    if s == [] {
      levels := [];
    } else {
      var free, held := Select(s, Names(s), true), Select(s, Names(s), false);
      SelectSplits(s, Names(s));
      SelectDistinct(s, Names(s), true);
      SelectDistinct(s, Names(s), false);
      var above := LayersByLevel(held, less);
      var rest := Layers(held, less).value;
      LayersPermute(held, less);
      NamesCompare(free, less);
      SortSorts(free, ByName(less));
      FreeIsUnder(s, less, rest);
      LayerAscends(Sort(free, ByName(less)), rest, above, less);
      LayerLevels(Sort(free, ByName(less)), rest, above, Pointing());
      levels := Ground(|Sort(free, ByName(less))|) + Raised(above);
    }
  }

  /** The entity a field refers to is placed before the entity of the field. */
  lemma ReferencedComesFirst(s: seq<Entity>, less: Order, i: nat, j: nat)
    requires StrictTotal(less) && DistinctNames(s) && Layers(s, less).Some?
    requires i < |Layers(s, less).value| && j < |Layers(s, less).value|
    requires PointsTo(Layers(s, less).value[i], Layers(s, less).value[j])
    ensures j < i
  {
    var levels := LayersByLevel(s, less);
    var order := Layers(s, less).value;
    assert Pointing()(order[i], order[j]);
  }
}
