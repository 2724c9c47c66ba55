/** `_load_and_validate` and `import_world_seed` (backend/app/v2/bootstrap.py): worlds are inserted wave
    by wave, parents before children. */
module SeedImport {
  import opened Collections
  import opened Domain

  /** `data` stands for the columns that are copied unchanged. */
  datatype World = World(id: string, parent: Option<string>, data: string)

  datatype Row = Row(parent: Option<string>, data: string)

  datatype SeedError =
    | DuplicateWorld
    | UnknownParent(parent: string, child: string)
    | ParentCycle
    | AlreadyStored

  datatype Imported = Imported(count: nat) | Refused(error: SeedError)

  // ---------------------------------------------------------------- the file

  predicate DistinctIds(worlds: seq<World>) {
    forall i, j :: 0 <= i < j < |worlds| ==> worlds[i].id != worlds[j].id
  }

  function Ids(worlds: seq<World>): set<string> {
    set i | 0 <= i < |worlds| :: worlds[i].id
  }

  predicate ParentKnown(worlds: seq<World>, w: World) {
    w.parent.Some? ==> w.parent.value in Ids(worlds)
  }

  predicate WellFormed(worlds: seq<World>) {
    DistinctIds(worlds) && forall i :: 0 <= i < |worlds| ==> ParentKnown(worlds, worlds[i])
  }

  /** `_load_and_validate`, after parsing: the first problem in file order. */
  method Validate(worlds: seq<World>) returns (error: Option<SeedError>)
    ensures error.None? <==> WellFormed(worlds)
    ensures error == Some(DuplicateWorld) <==> !DistinctIds(worlds)
    ensures error.Some? && error.value != DuplicateWorld ==>
              exists i :: 0 <= i < |worlds| && !ParentKnown(worlds, worlds[i])
                          && (forall j :: 0 <= j < i ==> ParentKnown(worlds, worlds[j]))
                          && error.value == UnknownParent(worlds[i].parent.value, worlds[i].id)
  {
    var known := Ids(worlds);
    DistinctMeansAsMany(worlds);
    if |worlds| != |known| {
      return Some(DuplicateWorld);
    }
    for i := 0 to |worlds|
      invariant forall j :: 0 <= j < i ==> ParentKnown(worlds, worlds[j])
    {
      if worlds[i].parent.Some? && worlds[i].parent.value !in known {
        return Some(UnknownParent(worlds[i].parent.value, worlds[i].id));
      }
    }
    return None;
  }

  /** Comparing the list's length with its set's finds duplicates exactly. */
  lemma {:induction false} DistinctMeansAsMany(worlds: seq<World>)
    ensures |Ids(worlds)| <= |worlds|
    ensures |Ids(worlds)| == |worlds| <==> DistinctIds(worlds)
  {
    if worlds == [] {
      assert Ids(worlds) == {};
    } else {
      var rest, last := worlds[..|worlds| - 1], worlds[|worlds| - 1];
      assert worlds == rest + [last];
      DistinctMeansAsMany(rest);
      OneMoreWorld(rest, last);
    }
  }

  lemma OneMoreWorld(rest: seq<World>, last: World)
    ensures Ids(rest + [last]) == Ids(rest) + {last.id}
    ensures DistinctIds(rest + [last]) <==> DistinctIds(rest) && last.id !in Ids(rest)
  {
    var worlds := rest + [last];
    assert forall i :: 0 <= i < |rest| ==> worlds[i] == rest[i];
    assert worlds[|rest|] == last;
    forall id ensures id in Ids(worlds) <==> id in Ids(rest) || id == last.id {
      if id in Ids(rest) {
        var i :| 0 <= i < |rest| && rest[i].id == id;
        assert worlds[i].id == id;
      }
    }
  }

  // ---------------------------------------------------------------- parents

  /** `{world.id: world for world in worlds}` */
  ghost predicate ById(worlds: seq<World>, all: map<string, World>) {
    && (forall i :: 0 <= i < |worlds| ==> worlds[i].id in all && all[worlds[i].id] == worlds[i])
    && (forall id :: id in all ==> all[id].id == id && all[id] in worlds)
  }

  method IndexById(worlds: seq<World>) returns (all: map<string, World>)
    requires DistinctIds(worlds)
    ensures ById(worlds, all)
  {
    all := map[];
    for i := 0 to |worlds|
      invariant ById(worlds[..i], all)
    {
      assert worlds[..i + 1] == worlds[..i] + [worlds[i]];
      all := all[worlds[i].id := worlds[i]];
    }
    assert worlds[..|worlds|] == worlds;
  }

  ghost predicate ParentOf(worlds: seq<World>, child: string, parent: string) {
    exists i :: 0 <= i < |worlds| && worlds[i].id == child && worlds[i].parent == Some(parent)
  }

  ghost predicate Lineage(worlds: seq<World>, p: seq<string>) {
    p != [] && forall i :: 0 <= i < |p| - 1 ==> ParentOf(worlds, p[i], p[i + 1])
  }

  /** Parents that lead back to where they started and not at once: a cycle of two or more. */
  ghost predicate Cycle(worlds: seq<World>, p: seq<string>) {
    |p| >= 2 && Lineage(worlds, p) && p[0] == p[|p| - 1] && p[0] != p[1]
  }

  ghost predicate HasCycle(worlds: seq<World>) {
    exists p :: Cycle(worlds, p)
  }

  // ---------------------------------------------------------------- the import

  function RowOf(w: World): Row {
    Row(if w.parent == Some(w.id) then None else w.parent, w.data)
  }

  predicate Ready(w: World, inserted: set<string>) {
    w.parent.None? || w.parent.value == w.id || w.parent.value in inserted
  }

  /** The table after a successful import. */
  ghost predicate Stored(before: map<string, Row>, worlds: seq<World>, after: map<string, Row>) {
    && (forall id :: id in after <==> id in before || id in Ids(worlds))
    && (forall id :: id in before ==> after[id] == before[id])
    && (forall i :: 0 <= i < |worlds| ==> worlds[i].id in after && after[worlds[i].id] == RowOf(worlds[i]))
  }

  /** Each world's parent comes in a strictly earlier wave, unless it is the world itself. */
  ghost predicate InWaves(worlds: seq<World>, wave: map<string, nat>) {
    && (forall i :: 0 <= i < |worlds| ==> worlds[i].id in wave)
    && forall i :: 0 <= i < |worlds| && worlds[i].parent.Some? && worlds[i].parent.value != worlds[i].id ==>
         worlds[i].parent.value in wave && wave[worlds[i].parent.value] < wave[worlds[i].id]
  }

  /** The stored rows of a file: each with its data, under the parent the file names unless that is the
      world itself, and under no other. */
  ghost predicate AsTheFileSays(file: seq<World>, rows: map<string, Row>) {
    forall i :: 0 <= i < |file| ==>
      && file[i].id in rows && rows[file[i].id].data == file[i].data
      && (forall p :: rows[file[i].id].parent == Some(p) <==> file[i].parent == Some(p) && p != file[i].id)
      && (forall p :: rows[file[i].id].parent == Some(p) ==> p in rows)
  }

  ghost predicate StoredUnder(rows: map<string, Row>, child: string, parent: string) {
    child in rows && rows[child].parent == Some(parent)
  }

  ghost predicate Descent(rows: map<string, Row>, p: seq<string>) {
    |p| >= 2 && forall i :: 0 <= i < |p| - 1 ==> StoredUnder(rows, p[i], p[i + 1])
  }

  /** Every stored parent is stored, and no line of stored parents comes back to where it started. */
  ghost predicate Forest(rows: map<string, Row>) {
    && (forall child, parent :: StoredUnder(rows, child, parent) ==> parent in rows)
    && forall p :: Descent(rows, p) ==> p[0] != p[|p| - 1]
  }

  class WorldStore {
    var worlds: map<string, Row>
    var seedRuns: map<string, nat>

    constructor ()
      ensures worlds == map[] && seedRuns == map[]
    {
      worlds, seedRuns := map[], map[];
    }

    /** One wave: inserts every world that is ready and takes it from `remaining`. */
    method InsertReady(ready: set<string>, remaining: map<string, World>) returns (rest: map<string, World>)
      requires forall id :: id in ready ==> id in remaining
      modifies this`worlds
      ensures forall id :: id in rest <==> id in remaining && id !in ready
      ensures forall id :: id in rest ==> rest[id] == remaining[id]
      ensures forall id :: id in worlds <==> id in old(worlds) || id in ready
      ensures forall id :: id in worlds ==>
                worlds[id] == if id in ready then RowOf(remaining[id]) else old(worlds)[id]
    {
      rest := remaining;
      var todo := ready;
      while todo != {}
        invariant todo <= ready
        invariant forall id :: id in rest <==> id in remaining && (id in ready ==> id in todo)
        invariant forall id :: id in rest ==> rest[id] == remaining[id]
        invariant forall id :: id in worlds <==> id in old(worlds) || (id in ready && id !in todo)
        invariant forall id :: id in worlds ==>
          worlds[id] == if id in ready && id !in todo then RowOf(remaining[id]) else old(worlds)[id]
        decreases |todo|
      {
        var id :| id in todo;
        todo := todo - {id};
        worlds := worlds[id := RowOf(rest[id])];
        rest := rest - {id};
      }
    }

    /** The loop over waves, without the rollback an error causes. `wave` numbers the wave of each
        inserted world; `stuck` is what no wave could take. */
    method InsertWaves(file: seq<World>)
      returns (error: Option<SeedError>, ghost wave: map<string, nat>, ghost stuck: set<string>)
      requires WellFormed(file)
      modifies this`worlds
      ensures error.None? ==> Stored(old(worlds), file, worlds) && New(old(worlds), file) && InWaves(file, wave)
      ensures error.Some? ==>
                || (error.value == ParentCycle && Stuck(file, stuck))
                || (error.value == AlreadyStored && !New(old(worlds), file))
    {
      var before := worlds;
      stuck := {};
      wave := map[];
      ghost var n: nat := 0;
      var remaining := IndexById(file);
      ghost var all := remaining;
      var inserted := worlds.Keys;
      while remaining.Keys != {}
        invariant Outstanding(all, remaining)
        invariant forall id :: id in inserted <==> id in worlds
        invariant Partly(before, all, remaining, worlds)
        invariant Earlier(before, all, remaining, wave, n)
        decreases |remaining|
      {
        var ready := set id | id in remaining && Ready(remaining[id], inserted);
        if ready == {} {
          stuck := remaining.Keys;
          assert forall id :: id in remaining ==> id !in ready;
          NothingReady(before, file, all, remaining, worlds, inserted);
          return Some(ParentCycle), wave, stuck;
        }
        if !(ready !! before.Keys) {
          var id :| id in ready && id in before.Keys;
          assert all[id] in file;
          return Some(AlreadyStored), wave, stuck;
        }
        ghost var started, table := remaining, worlds;
        remaining := InsertReady(ready, remaining);
        Shrinks(started, remaining, ready);
        NextTable(before, all, started, table, ready, remaining, worlds);
        NextWave(before, all, started, table, ready, remaining, inserted, wave, n);
        inserted := inserted + ready;
        wave := NextWaves(wave, ready, n);
        n := n + 1;
      }
      AllStored(before, file, all, remaining, worlds, wave, n);
      return None, wave, stuck;
    }

    /** `import_world_seed`; an error rolls the transaction back. */
    method Import(sourceHash: string, file: seq<World>) returns (r: Imported, ghost wave: map<string, nat>)
      modifies this
      ensures r.Refused? ==> worlds == old(worlds) && seedRuns == old(seedRuns)
      ensures !WellFormed(file) ==> r.Refused? && (r.error.DuplicateWorld? || r.error.UnknownParent?)
      ensures WellFormed(file) && sourceHash in old(seedRuns) ==>
                r == Imported(0) && worlds == old(worlds) && seedRuns == old(seedRuns)
      ensures WellFormed(file) && sourceHash !in old(seedRuns) && New(old(worlds), file) ==>
                r == if HasCycle(file) then Refused(ParentCycle) else Imported(|file|)
      ensures WellFormed(file) && sourceHash !in old(seedRuns) && !New(old(worlds), file) ==>
                r == Refused(AlreadyStored) || r == Refused(ParentCycle)
      ensures WellFormed(file) && sourceHash !in old(seedRuns) && r.Imported? ==>
                && Stored(old(worlds), file, worlds) && InWaves(file, wave)
                && seedRuns == old(seedRuns)[sourceHash := |file|]
                && AsTheFileSays(file, worlds) && (Forest(old(worlds)) ==> Forest(worlds))
    {
      wave := map[];
      var invalid := Validate(file);
      if invalid.Some? {
        return Refused(invalid.value), wave;
      }
      if sourceHash in seedRuns {
        return Imported(0), wave;
      }
      var before := worlds;
      var error: Option<SeedError>;
      ghost var stuck;
      error, wave, stuck := InsertWaves(file);
      if error.Some? {
        if error.value == ParentCycle {
          StuckMeansCycle(file, stuck);
        }
        worlds := before;
        return Refused(error.value), wave;
      }
      WavesForbidCycles(file, wave);
      StoredAsTheFileSays(before, file, worlds);
      if Forest(before) {
        ImportKeepsForest(before, file, worlds, wave);
      }
      seedRuns := seedRuns[sourceHash := |file|];
      return Imported(|file|), wave;
    }
  }

  predicate New(before: map<string, Row>, file: seq<World>) {
    forall i :: 0 <= i < |file| ==> file[i].id !in before
  }

  // ---------------------------------------------------------------- between two waves

  predicate Outstanding(all: map<string, World>, remaining: map<string, World>) {
    forall id :: id in remaining ==> id in all && remaining[id] == all[id]
  }

  ghost predicate Partly(
    before: map<string, Row>, all: map<string, World>, remaining: map<string, World>, worlds: map<string, Row>)
  {
    && (forall id :: id in worlds <==> id in before || (id in all && id !in remaining))
    && (forall id :: id in before ==> id in worlds && worlds[id] == before[id])
    && (forall id :: id in all && id !in remaining ==>
          id !in before && id in worlds && worlds[id] == RowOf(all[id]))
  }

  predicate After(before: map<string, Row>, w: World, wave: map<string, nat>) {
    w.id in wave && (w.parent.Some? && w.parent.value != w.id && w.parent.value !in before ==>
      w.parent.value in wave && wave[w.parent.value] < wave[w.id])
  }

  ghost predicate Earlier(
    before: map<string, Row>, all: map<string, World>, remaining: map<string, World>, wave: map<string, nat>, n: nat)
  {
    && (forall id :: id in wave ==> wave[id] < n && id in all && id !in remaining)
    && (forall id :: id in all && id !in remaining ==> After(before, all[id], wave))
  }

  /** What InsertReady did to the table and the remaining worlds. */
  ghost predicate Taken(
    started: map<string, World>, table: map<string, Row>, ready: set<string>, remaining: map<string, World>,
    worlds: map<string, Row>)
  {
    && (forall id :: id in ready ==> id in started)
    && (forall id :: id in remaining <==> id in started && id !in ready)
    && (forall id :: id in remaining ==> remaining[id] == started[id])
    && (forall id :: id in worlds <==> id in table || id in ready)
    && (forall id :: id in worlds ==> worlds[id] == if id in ready then RowOf(started[id]) else table[id])
  }

  lemma NextTable(
    before: map<string, Row>, all: map<string, World>, started: map<string, World>, table: map<string, Row>,
    ready: set<string>, remaining: map<string, World>, worlds: map<string, Row>)
    requires Outstanding(all, started) && Partly(before, all, started, table)
    requires Taken(started, table, ready, remaining, worlds) && forall id :: id in ready ==> id !in before
    ensures Outstanding(all, remaining) && Partly(before, all, remaining, worlds)
  {
  }

  ghost function NextWaves(wave: map<string, nat>, ready: set<string>, n: nat): map<string, nat> {
    map id | id in wave.Keys + ready :: if id in ready then n else wave[id]
  }

  lemma NextWave(
    before: map<string, Row>, all: map<string, World>, started: map<string, World>, table: map<string, Row>,
    ready: set<string>, remaining: map<string, World>, inserted: set<string>, wave: map<string, nat>, n: nat)
    requires Outstanding(all, started) && Partly(before, all, started, table) && Earlier(before, all, started, wave, n)
    requires forall id :: id in ready ==> id in started && Ready(started[id], inserted)
    requires forall id :: id in inserted <==> id in table
    requires forall id :: id in remaining <==> id in started && id !in ready
    requires forall id :: id in all ==> all[id].id == id
    ensures Earlier(before, all, remaining, NextWaves(wave, ready, n), n + 1)
  {
    var longer := NextWaves(wave, ready, n);
    forall id | id in all && id !in remaining ensures After(before, all[id], longer) {
      if id !in ready {
        assert After(before, all[id], wave);
      } else {
        var w := started[id];
        if w.parent.Some? && w.parent.value != w.id && w.parent.value !in before {
          assert w.parent.value in table;
          assert After(before, all[w.parent.value], wave);
        }
      }
    }
  }

  lemma Shrinks(before: map<string, World>, after: map<string, World>, gone: set<string>)
    requires gone != {} && forall id :: id in gone ==> id in before
    requires forall id :: id in after <==> id in before && id !in gone
    ensures |after| < |before|
  {
    var id :| id in gone;
    assert after.Keys <= before.Keys - {id};
    SubsetIsSmaller(after.Keys, before.Keys - {id});
  }

  lemma AllStored(
    before: map<string, Row>, file: seq<World>, all: map<string, World>, remaining: map<string, World>,
    worlds: map<string, Row>, wave: map<string, nat>, n: nat)
    requires WellFormed(file) && ById(file, all) && remaining.Keys == {}
    requires Partly(before, all, remaining, worlds) && Earlier(before, all, remaining, wave, n)
    ensures Stored(before, file, worlds) && New(before, file) && InWaves(file, wave)
  {
    forall id ensures id in Ids(file) <==> id in all {
      if id in all {
        var i :| 0 <= i < |file| && file[i] == all[id];
      }
    }
    forall i | 0 <= i < |file|
      ensures file[i].id !in before && file[i].id in worlds && worlds[file[i].id] == RowOf(file[i])
      ensures After(before, file[i], wave)
    {
      assert all[file[i].id] == file[i];
    }
  }

  // ---------------------------------------------------------------- no wave left means a cycle

  /** Worlds whose parents are all among themselves, none its own parent. */
  ghost predicate Stuck(file: seq<World>, stuck: set<string>) {
    && stuck != {}
    && forall id {:trigger ParentAmong(file, id, stuck)} :: id in stuck ==> ParentAmong(file, id, stuck)
  }

  ghost predicate ParentAmong(file: seq<World>, id: string, stuck: set<string>) {
    exists parent :: ParentOf(file, id, parent) && parent != id && parent in stuck
  }

  lemma NothingReady(
    before: map<string, Row>, file: seq<World>, all: map<string, World>, remaining: map<string, World>,
    worlds: map<string, Row>, inserted: set<string>)
    requires WellFormed(file) && ById(file, all) && forall id :: id in inserted <==> id in worlds
    requires Outstanding(all, remaining) && Partly(before, all, remaining, worlds)
    requires remaining.Keys != {} && forall id :: id in remaining ==> !Ready(remaining[id], inserted)
    ensures Stuck(file, remaining.Keys)
  {
    forall id | id in remaining ensures ParentAmong(file, id, remaining.Keys) {
      var i :| 0 <= i < |file| && file[i] == all[id];
      assert ParentKnown(file, file[i]);
      var j :| 0 <= j < |file| && file[j].id == file[i].parent.value;
      assert file[j].id in all;
      assert ParentOf(file, id, file[i].parent.value);
    }
  }

  lemma StuckMeansCycle(file: seq<World>, stuck: set<string>)
    requires Stuck(file, stuck)
    ensures HasCycle(file)
  {
    var start :| start in stuck;
    var p := Climb(file, stuck, start, |stuck|);
    var i, j := Repeats(p, stuck);
    var q := p[i..j + 1];
    forall k | 0 <= k < |q| - 1 ensures ParentOf(file, q[k], q[k + 1]) {
      assert q[k] == p[i + k] && q[k + 1] == p[i + k + 1];
    }
    assert Cycle(file, q);
  }

  /** A lineage of `n` steps that never stays in place and never leaves `stuck`. */
  lemma {:induction false} Climb(file: seq<World>, stuck: set<string>, start: string, n: nat)
    returns (p: seq<string>)
    requires Stuck(file, stuck) && start in stuck
    ensures |p| == n + 1 && p[0] == start && Lineage(file, p)
    ensures forall k :: 0 <= k < |p| ==> p[k] in stuck
    ensures forall k :: 0 <= k < n ==> p[k] != p[k + 1]
  {
    if n == 0 {
      p := [start];
    } else {
      var shorter := Climb(file, stuck, start, n - 1);
      var last := shorter[n - 1];
      assert ParentAmong(file, last, stuck);
      var parent :| ParentOf(file, last, parent) && parent != last && parent in stuck;
      p := shorter + [parent];
    }
  }

  lemma Repeats(p: seq<string>, s: set<string>) returns (i: nat, j: nat)
    requires |p| > |s| && forall k :: 0 <= k < |p| ==> p[k] in s
    ensures i < j < |p| && p[i] == p[j]
  {
    if !exists a, b :: 0 <= a < b < |p| && p[a] == p[b] {
      DistinctFit(p, s);
      assert false;
    }
    i, j :| 0 <= i < j < |p| && p[i] == p[j];
  }

  /** Where every parent is in an earlier wave no lineage comes back. */
  lemma WavesForbidCycles(file: seq<World>, wave: map<string, nat>)
    requires WellFormed(file) && InWaves(file, wave)
    ensures !HasCycle(file)
  {
    if HasCycle(file) {
      var p :| Cycle(file, p);
      WavesFall(file, wave, p, 1);
      WavesFall(file, wave, p, |p| - 1);
    }
  }

  lemma {:induction false} WavesFall(file: seq<World>, wave: map<string, nat>, p: seq<string>, n: nat)
    requires WellFormed(file) && InWaves(file, wave) && Lineage(file, p) && 1 <= n < |p|
    ensures p[0] in wave && p[1] in wave && p[n] in wave && wave[p[n]] <= wave[p[1]] <= wave[p[0]]
    ensures p[0] != p[1] ==> wave[p[1]] < wave[p[0]]
  {
    assert ParentOf(file, p[n - 1], p[n]);
    if n > 1 {
      WavesFall(file, wave, p, n - 1);
    }
  }

  // ---------------------------------------------------------------- the stored hierarchy

  lemma StoredAsTheFileSays(before: map<string, Row>, file: seq<World>, after: map<string, Row>)
    requires WellFormed(file) && Stored(before, file, after)
    ensures AsTheFileSays(file, after)
  {
    assert forall i :: 0 <= i < |file| ==> ParentKnown(file, file[i]);
  }

  /** Imported worlds hang under imported worlds of earlier waves and old ones under old ones, so a
      forest stays one. */
  lemma ImportKeepsForest(before: map<string, Row>, file: seq<World>, after: map<string, Row>, wave: map<string, nat>)
    requires WellFormed(file) && New(before, file) && Stored(before, file, after) && InWaves(file, wave)
    requires AsTheFileSays(file, after) && Forest(before)
    ensures Forest(after)
  {
    forall child, parent | StoredUnder(after, child, parent)
      ensures parent in after && (child in Ids(file) <==> parent in Ids(file))
    {
      ParentsStayTogether(before, file, after, wave, child, parent);
    }
    forall p | Descent(after, p) ensures p[0] != p[|p| - 1] {
      if p[0] in Ids(file) {
        DescentFalls(before, file, after, wave, p, |p| - 1);
      } else {
        DescentIsOld(before, file, after, wave, p, |p| - 1);
        forall i | 0 <= i < |p| - 1 ensures StoredUnder(before, p[i], p[i + 1]) {
          DescentIsOld(before, file, after, wave, p, i);
          assert StoredUnder(after, p[i], p[i + 1]);
        }
        assert Descent(before, p);
      }
    }
  }

  lemma ParentsStayTogether(
    before: map<string, Row>, file: seq<World>, after: map<string, Row>, wave: map<string, nat>, child: string,
    parent: string)
    requires WellFormed(file) && New(before, file) && Stored(before, file, after) && InWaves(file, wave)
    requires AsTheFileSays(file, after) && Forest(before) && StoredUnder(after, child, parent)
    ensures parent in after && (child in Ids(file) <==> parent in Ids(file))
    ensures child in Ids(file) ==> child in wave && parent in wave && wave[parent] < wave[child]
  {
    if child in Ids(file) {
      var i :| 0 <= i < |file| && file[i].id == child;
      assert after[file[i].id].parent == Some(parent);
      assert file[i].parent == Some(parent) && parent != child && ParentKnown(file, file[i]);
    } else {
      assert StoredUnder(before, child, parent);
    }
  }

  lemma {:induction false} DescentFalls(
    before: map<string, Row>, file: seq<World>, after: map<string, Row>, wave: map<string, nat>, p: seq<string>, n: nat)
    requires WellFormed(file) && New(before, file) && Stored(before, file, after) && InWaves(file, wave)
    requires AsTheFileSays(file, after) && Forest(before)
    requires Descent(after, p) && p[0] in Ids(file) && n < |p|
    ensures p[n] in Ids(file) && p[0] in wave && p[n] in wave && (n > 0 ==> wave[p[n]] < wave[p[0]])
  {
    if n > 0 {
      DescentFalls(before, file, after, wave, p, n - 1);
      assert StoredUnder(after, p[n - 1], p[n]);
      ParentsStayTogether(before, file, after, wave, p[n - 1], p[n]);
    } else {
      assert StoredUnder(after, p[0], p[1]);
      ParentsStayTogether(before, file, after, wave, p[0], p[1]);
    }
  }

  lemma {:induction false} DescentIsOld(
    before: map<string, Row>, file: seq<World>, after: map<string, Row>, wave: map<string, nat>, p: seq<string>, n: nat)
    requires WellFormed(file) && New(before, file) && Stored(before, file, after) && InWaves(file, wave)
    requires AsTheFileSays(file, after) && Forest(before)
    requires Descent(after, p) && p[0] !in Ids(file) && n < |p|
    ensures p[n] !in Ids(file)
  {
    if n > 0 {
      DescentIsOld(before, file, after, wave, p, n - 1);
      assert StoredUnder(after, p[n - 1], p[n]);
      ParentsStayTogether(before, file, after, wave, p[n - 1], p[n]);
    }
  }
}
