/** Default demand: how many sessions each pool template has work for. */
module Demand {
  import opened Beads
  import opened Text

  // ---- Capacity units -----------------------------------------------------------

  // A required continuation group of a molecule.
  datatype Group = Group(storeRef: string, root: string, name: string)

  // A row as the counter looks at it: its ID and, if it is a step of one, its group.
  datatype View = View(id: string, group: Option<Group>)

  function ViewOf(b: Bead): View {
    var root, group := b.Meta("gc.root_bead_id"), b.Meta("gc.continuation_group");
    if root == "" || group == "" || b.Meta("gc.session_affinity") != "require" then View(b.id, None)
    else View(b.id, Some(Group(b.Meta("gc.root_store_ref"), root, group)))
  }

  // Steps of one required continuation group share a key; other rows have none.
  function UnitKey(v: View): string {
    if v.group.None? then "" else GroupKey(v.group.value.storeRef, v.group.value.root, v.group.value.name)
  }

  function GroupKey(storeRef: string, root: string, group: string): string {
    "molecule:" + storeRef + ":" + root + ":" + group
  }

  predicate ColonFree(s: string) {
    forall i :: 0 <= i < |s| ==> s[i] != ':'
  }

  lemma NoLaterColon(a: string, b: string, k: nat)
    requires ColonFree(b) && |a| < k < |a| + 1 + |b|
    ensures (a + ":" + b)[k] != ':'
  {
    assert (a + ":" + b)[k] == b[k - |a| - 1];
  }

  lemma LastField(a: string, b: string, a': string, b': string)
    requires a + ":" + b == a' + ":" + b' && ColonFree(b) && ColonFree(b')
    ensures a == a' && b == b'
  {
    var s, s' := a + ":" + b, a' + ":" + b';
    assert s[|a|] == ':' && s'[|a'|] == ':';
    forall k | |a| < k < |s|
      ensures s[k] != ':'
    {
      NoLaterColon(a, b, k);
    }
    forall k | |a'| < k < |s'|
      ensures s'[k] != ':'
    {
      NoLaterColon(a', b', k);
    }
    assert s[..|a|] == a && s'[..|a'|] == a' && s[|a| + 1..] == b && s'[|a'| + 1..] == b';
  }

  /** Groups of different molecules have different keys as long as root IDs and group names
      hold no colon; store refs may. */
  lemma GroupKeysDiffer(storeRef: string, root: string, group: string, storeRef': string, root': string, group': string)
    requires ColonFree(root) && ColonFree(group) && ColonFree(root') && ColonFree(group')
    requires GroupKey(storeRef, root, group) == GroupKey(storeRef', root', group')
    ensures storeRef == storeRef' && root == root' && group == group'
  {
    LastField("molecule:" + storeRef + ":" + root, group, "molecule:" + storeRef' + ":" + root', group');
    LastField("molecule:" + storeRef, root, "molecule:" + storeRef', root');
    assert ("molecule:" + storeRef)[9..] == storeRef && ("molecule:" + storeRef')[9..] == storeRef';
  }

  ghost function Colons(s: string): nat {
    if s == "" then 0 else Colons(s[..|s| - 1]) + if s[|s| - 1] == ':' then 1 else 0
  }

  lemma {:induction false} ColonsAdd(a: string, b: string)
    ensures Colons(a + b) == Colons(a) + Colons(b)
  {
    if b == "" {
      assert a + b == a;
    } else {
      ColonsAdd(a, b[..|b| - 1]);
      assert (a + b)[..|a + b| - 1] == a + b[..|b| - 1];
    }
  }

  lemma {:induction false} NoColons(s: string)
    ensures Colons(s) == 0 <==> ColonFree(s)
  {
    if s != "" {
      NoColons(s[..|s| - 1]);
      assert forall i :: 0 <= i < |s| - 1 ==> s[..|s| - 1][i] == s[i];
    }
  }

  lemma KeyColons(storeRef: string, root: string, group: string)
    ensures Colons(GroupKey(storeRef, root, group)) == 3 + Colons(storeRef) + Colons(root) + Colons(group)
  {
    ColonsAdd("molecule:" + storeRef + ":" + root + ":", group);
    ColonsAdd("molecule:" + storeRef + ":" + root, ":");
    ColonsAdd("molecule:" + storeRef + ":", root);
    ColonsAdd("molecule:" + storeRef, ":");
    ColonsAdd("molecule:", storeRef);
    ColonsAdd("molecule", ":");
    NoColons("molecule");
    assert "molecule" + ":" == "molecule:" && ":"[..0] == "";
    assert Colons(":") == Colons("") + 1;
  }

  ghost predicate KeyUnique(storeRef: string, root: string, group: string) {
    forall s, r, g :: GroupKey(s, r, g) == GroupKey(storeRef, root, group) ==> s == storeRef && r == root && g == group
  }

  /** A group shares its key with no other triple if and only if none of its three fields holds a
      colon. */
  lemma KeyUniqueExactly(storeRef: string, root: string, group: string)
    ensures KeyUnique(storeRef, root, group) <==> ColonFree(storeRef) && ColonFree(root) && ColonFree(group)
  {
    NoColons(storeRef);
    NoColons(root);
    NoColons(group);
    if ColonFree(storeRef) && ColonFree(root) && ColonFree(group) {
      forall s, r, g | GroupKey(s, r, g) == GroupKey(storeRef, root, group)
        ensures s == storeRef && r == root && g == group
      {
        KeyColons(s, r, g);
        KeyColons(storeRef, root, group);
        NoColons(r);
        NoColons(g);
        GroupKeysDiffer(s, r, g, storeRef, root, group);
      }
    } else if !ColonFree(storeRef) {
      var k := ColonAt(storeRef);
      SharedKey(storeRef[..k], storeRef[k + 1..], root, group);
    } else if !ColonFree(root) {
      var k := ColonAt(root);
      SharedKey(storeRef, root[..k], root[k + 1..], group);
    } else {
      var k := ColonAt(group);
      SharedKey(storeRef, root, group[..k], group[k + 1..]);
    }
  }

  lemma ColonAt(s: string) returns (k: nat)
    requires !ColonFree(s)
    ensures k < |s| && s == s[..k] + ":" + s[k + 1..]
  {
    k :| 0 <= k < |s| && s[k] == ':';
  }

  // Four fields can be read as three in three ways.
  lemma SharedKey(a: string, b: string, c: string, d: string)
    ensures GroupKey(a + ":" + b, c, d) == GroupKey(a, b + ":" + c, d) == GroupKey(a, b, c + ":" + d)
    ensures !KeyUnique(a + ":" + b, c, d) && !KeyUnique(a, b + ":" + c, d) && !KeyUnique(a, b, c + ":" + d)
  {
    assert "molecule:" + (a + ":" + b) + ":" + c + ":" + d == "molecule:" + a + ":" + (b + ":" + c) + ":" + d;
    assert "molecule:" + a + ":" + (b + ":" + c) + ":" + d == "molecule:" + a + ":" + b + ":" + (c + ":" + d);
    assert |a + ":" + b| > |a| && |b + ":" + c| > |b|;
    assert GroupKey(a, b + ":" + c, d) == GroupKey(a + ":" + b, c, d);
    assert GroupKey(a, b + ":" + c, d) == GroupKey(a, b, c + ":" + d);
  }

  // ---- Counting -----------------------------------------------------------------

  // A row as the counter sees it for one template.
  datatype Row = Row(id: string, key: string)

  datatype Unit = ByBead(id: string) | ByGroup(key: string)

  function UnitOf(r: Row): Unit {
    if r.key == "" then ByBead(r.id) else ByGroup(r.key)
  }

  ghost function Units(rows: seq<Row>): set<Unit> {
    set i | 0 <= i < |rows| :: UnitOf(rows[i])
  }

  // One template's running count: IDs looked at, group keys counted, IDs counted, in order.
  datatype Tally = Tally(seen: set<string>, keys: set<string>, ids: seq<string>)

  const NOTHING := Tally({}, {}, [])

  function Count(t: Tally, r: Row): Tally {
    if r.id in t.seen then t
    else if r.key == "" then Tally(t.seen + {r.id}, t.keys, t.ids + [r.id])
    else if r.key in t.keys then t.(seen := t.seen + {r.id})
    else Tally(t.seen + {r.id}, t.keys + {r.key}, t.ids + [r.id])
  }

  ghost function CountAll(rows: seq<Row>): Tally {
    if rows == [] then NOTHING else Count(CountAll(rows[..|rows| - 1]), rows[|rows| - 1])
  }

  // Every view of a bead agrees on its capacity unit.
  ghost predicate Consistent(rows: seq<Row>) {
    forall i, j :: 0 <= i < j < |rows| && rows[i].id == rows[j].id ==> rows[i].key == rows[j].key
  }

  ghost predicate Distinct(ids: seq<string>) {
    forall i, j :: 0 <= i < j < |ids| ==> ids[i] != ids[j]
  }

  // The first row of its ID.
  ghost predicate FirstSeen(rows: seq<Row>, i: nat)
    requires i < |rows|
  {
    forall j :: 0 <= j < i ==> rows[j].id != rows[i].id
  }

  lemma {:induction false} CountedOnce(rows: seq<Row>)
    ensures Distinct(CountAll(rows).ids)
    ensures forall i :: 0 <= i < |CountAll(rows).ids| ==> CountAll(rows).ids[i] in CountAll(rows).seen
    ensures forall id :: id in CountAll(rows).seen <==> exists i :: 0 <= i < |rows| && rows[i].id == id
    ensures forall k :: k in CountAll(rows).keys ==> k != "" && exists i :: 0 <= i < |rows| && rows[i].key == k
  {
    if rows != [] {
      var front := rows[..|rows| - 1];
      CountedOnce(front);
      assert forall i :: 0 <= i < |front| ==> rows[i] == front[i];
    }
  }

  ghost predicate KeyFrom(rows: seq<Row>, k: string) {
    exists i :: 0 <= i < |rows| && FirstSeen(rows, i) && rows[i].key == k
  }

  lemma OneMoreKey(front: seq<Row>, r: Row, k: string)
    ensures KeyFrom(front + [r], k) <==>
              KeyFrom(front, k) || (r.key == k && forall i :: 0 <= i < |front| ==> front[i].id != r.id)
  {
    var rows := front + [r];
    assert forall i :: 0 <= i < |front| ==> rows[i] == front[i];
    assert rows[|front|] == r;
    if KeyFrom(front, k) {
      var i :| 0 <= i < |front| && FirstSeen(front, i) && front[i].key == k;
      assert FirstSeen(rows, i);
    }
    if KeyFrom(rows, k) {
      var i :| 0 <= i < |rows| && FirstSeen(rows, i) && rows[i].key == k;
      assert i < |front| ==> FirstSeen(front, i);
    }
    if r.key == k && forall i :: 0 <= i < |front| ==> front[i].id != r.id {
      assert FirstSeen(rows, |front|);
    }
  }

  /** The group keys counted are exactly those of the rows looked at, each the first of its ID. */
  lemma {:induction false} KeysCounted(rows: seq<Row>, k: string)
    ensures k in CountAll(rows).keys <==> k != "" && KeyFrom(rows, k)
  {
    if rows != [] {
      var front, r := rows[..|rows| - 1], rows[|rows| - 1];
      assert rows == front + [r];
      KeysCounted(front, k);
      OneMoreKey(front, r, k);
      CountedOnce(front);
      assert r.id in CountAll(front).seen <==> exists i :: 0 <= i < |front| && front[i].id == r.id;
    }
  }

  // The count and the units agree on the rows read so far.
  ghost predicate Agrees(t: Tally, units: set<Unit>) {
    |t.ids| == |units| && forall k :: k in t.keys <==> ByGroup(k) in units
  }

  // A row not looked at before.
  lemma NewRow(t: Tally, units: set<Unit>, r: Row)
    requires Agrees(t, units) && r.id !in t.seen && (r.key == "" ==> ByBead(r.id) !in units)
    ensures Agrees(Count(t, r), units + {UnitOf(r)})
  {
    if r.key != "" && r.key in t.keys {
      assert units + {UnitOf(r)} == units;
    }
  }

  lemma OneMoreRow(rows: seq<Row>, r: Row)
    requires Agrees(CountAll(rows), Units(rows))
    requires forall i :: 0 <= i < |rows| && rows[i].id == r.id ==> rows[i].key == r.key
    ensures Agrees(Count(CountAll(rows), r), Units(rows) + {UnitOf(r)})
  {
    var t := CountAll(rows);
    SeenIs(rows, r.id);
    if r.id in t.seen {
      var i :| 0 <= i < |rows| && rows[i].id == r.id;
      assert UnitOf(rows[i]) == UnitOf(r);
      assert Units(rows) + {UnitOf(r)} == Units(rows);
    } else {
      NewRow(t, Units(rows), r);
    }
  }

  lemma SeenIs(rows: seq<Row>, id: string)
    ensures id in CountAll(rows).seen <==> exists i :: 0 <= i < |rows| && rows[i].id == id
  {
    CountedOnce(rows);
  }

  /** Demand is the number of distinct capacity units, one per bead or one per required
      continuation group. */
  lemma {:induction false} DemandIsUnits(rows: seq<Row>)
    requires Consistent(rows)
    ensures Agrees(CountAll(rows), Units(rows))
  {
    if rows != [] {
      var front, r := rows[..|rows| - 1], rows[|rows| - 1];
      assert rows == front + [r] && forall i :: 0 <= i < |front| ==> rows[i] == front[i];
      DemandIsUnits(front);
      OneMoreRow(front, r);
      UnitsGrow(front, r);
    }
  }

  lemma UnitsGrow(rows: seq<Row>, r: Row)
    ensures Units(rows + [r]) == Units(rows) + {UnitOf(r)}
  {
    var more := rows + [r];
    assert more[|rows|] == r && forall i :: 0 <= i < |rows| ==> more[i] == rows[i];
  }

  /** The order store groups are visited in does not matter, nor does seeing rows again
      through a second handle on the same store. */
  lemma OrderAndAliasesIrrelevant(rows: seq<Row>, rows': seq<Row>)
    requires Consistent(rows) && Consistent(rows')
    requires forall r :: r in rows <==> r in rows'
    ensures |CountAll(rows).ids| == |CountAll(rows').ids|
  {
    DemandIsUnits(rows);
    DemandIsUnits(rows');
    assert forall i :: 0 <= i < |rows| ==> rows[i] in rows';
    assert forall i :: 0 <= i < |rows'| ==> rows'[i] in rows;
    assert Units(rows) == Units(rows');
  }

  /** Consistency is exactly what this takes: over all the ways of reading from a set of rows,
      demand is the number of units if and only if the views agree. */
  lemma ConsistencyNeeded(pool: seq<Row>)
    ensures (forall rows: seq<Row> :: (forall r :: r in rows ==> r in pool) ==> |CountAll(rows).ids| == |Units(rows)|)
            <==> Consistent(pool)
  {
    if Consistent(pool) {
      forall rows: seq<Row> | forall r :: r in rows ==> r in pool
        ensures |CountAll(rows).ids| == |Units(rows)|
      {
        ReadsConsistent(pool, rows);
        DemandIsUnits(rows);
      }
    } else {
      var i, j :| 0 <= i < j < |pool| && pool[i].id == pool[j].id && pool[i].key != pool[j].key;
      var rows := [pool[i], pool[j]];
      assert rows[..1] == [pool[i]] && [pool[i]][..0] == [];
      assert CountAll([pool[i]]) == Count(NOTHING, pool[i]);
      UnitsGrow([pool[i]], pool[j]);
      UnitsGrow([], pool[i]);
      assert [pool[i]] + [pool[j]] == rows && [] + [pool[i]] == [pool[i]];
      assert Units([]) == {};
      assert |Units(rows)| == 2 && |CountAll(rows).ids| == 1;
    }
  }

  lemma ReadsConsistent(pool: seq<Row>, rows: seq<Row>)
    requires Consistent(pool) && forall r :: r in rows ==> r in pool
    ensures Consistent(rows)
  {
    forall i, j | 0 <= i < j < |rows| && rows[i].id == rows[j].id
      ensures rows[i].key == rows[j].key
    {
      assert rows[i] in pool && rows[j] in pool;
      var k :| 0 <= k < |pool| && pool[k] == rows[i];
      var m :| 0 <= m < |pool| && pool[m] == rows[j];
    }
  }

  // ---- Demand in sessions -------------------------------------------------------------

  // One session's worth of work: a bead on its own, or a required continuation group.
  datatype Capacity = OneBead(id: string) | OneGroup(group: Group)

  function CapacityOf(v: View): Capacity {
    if v.group.None? then OneBead(v.id) else OneGroup(v.group.value)
  }

  function RowOf(v: View): Row {
    Row(v.id, UnitKey(v))
  }

  ghost function RowsOf(views: seq<View>): seq<Row> {
    seq(|views|, i requires 0 <= i < |views| => RowOf(views[i]))
  }

  ghost function Capacities(views: seq<View>): set<Capacity> {
    set i | 0 <= i < |views| :: CapacityOf(views[i])
  }

  // Views of one bead agree on what it belongs to, and groups that share a key are one group.
  ghost predicate Agreed(views: seq<View>) {
    forall i, j :: 0 <= i < j < |views| ==> PairAgreed(views[i], views[j])
  }

  ghost predicate PairAgreed(a: View, b: View) {
    a.id == b.id || (UnitKey(a) == UnitKey(b) && UnitKey(a) != "") ==> CapacityOf(a) == CapacityOf(b)
  }

  lemma KeyIsSet(v: View)
    ensures UnitKey(v) == "" <==> v.group.None?
  {
    if v.group.Some? {
      assert UnitKey(v)[0] == 'm';
    }
  }

  // A row brings a new unit exactly when it brings new work.
  lemma NewUnit(front: seq<View>, v: View)
    requires forall i :: 0 <= i < |front| ==> PairAgreed(front[i], v)
    ensures UnitOf(RowOf(v)) in Units(RowsOf(front)) <==> CapacityOf(v) in Capacities(front)
  {
    KeyIsSet(v);
    if UnitOf(RowOf(v)) in Units(RowsOf(front)) {
      var i :| 0 <= i < |front| && UnitOf(RowsOf(front)[i]) == UnitOf(RowOf(v));
      KeyIsSet(front[i]);
      assert PairAgreed(front[i], v);
      assert CapacityOf(front[i]) in Capacities(front);
    }
    if CapacityOf(v) in Capacities(front) {
      var i :| 0 <= i < |front| && CapacityOf(front[i]) == CapacityOf(v);
      KeyIsSet(front[i]);
      assert UnitOf(RowsOf(front)[i]) == UnitOf(RowOf(v));
    }
  }

  lemma MoreViews(front: seq<View>, v: View)
    ensures RowsOf(front + [v]) == RowsOf(front) + [RowOf(v)]
    ensures Capacities(front + [v]) == Capacities(front) + {CapacityOf(v)}
  {
    var more := front + [v];
    assert more[|front|] == v && forall i :: 0 <= i < |front| ==> more[i] == front[i];
  }

  lemma {:induction false} UnitsAreCapacities(views: seq<View>)
    requires Agreed(views)
    ensures |Units(RowsOf(views))| == |Capacities(views)|
  {
    if views != [] {
      var front, v := views[..|views| - 1], views[|views| - 1];
      assert views == front + [v] && forall i :: 0 <= i < |front| ==> front[i] == views[i];
      UnitsAreCapacities(front);
      NewUnit(front, v);
      MoreViews(front, v);
      UnitsGrow(RowsOf(front), RowOf(v));
    }
  }

  lemma AgreedConsistent(views: seq<View>)
    requires Agreed(views)
    ensures Consistent(RowsOf(views))
  {
    forall i, j | 0 <= i < j < |views| && views[i].id == views[j].id
      ensures UnitKey(views[i]) == UnitKey(views[j])
    {
      assert PairAgreed(views[i], views[j]);
    }
  }

  /** The count is the number of sessions the work needs - one per bead, or one per required
      continuation group - for every way of reading from a set of rows, if and only if the views
      of each bead agree and no two of the groups share a key. */
  lemma DemandExactly(pool: seq<View>)
    ensures (forall views: seq<View> :: (forall v :: v in views ==> v in pool) ==> |CountAll(RowsOf(views)).ids| == |Capacities(views)|)
            <==> Agreed(pool)
  {
    if Agreed(pool) {
      forall views: seq<View> | forall v :: v in views ==> v in pool
        ensures |CountAll(RowsOf(views)).ids| == |Capacities(views)|
      {
        ReadsAgreed(pool, views);
        DemandIsCapacity(views);
      }
    } else {
      var i, j :| 0 <= i < j < |pool| && !PairAgreed(pool[i], pool[j]);
      TwoMiscounted(pool[i], pool[j]);
      assert forall v :: v in [pool[i], pool[j]] ==> v in pool;
    }
  }

  /** Demand in sessions, for rows whose views agree. */
  lemma DemandIsCapacity(views: seq<View>)
    requires Agreed(views)
    ensures |CountAll(RowsOf(views)).ids| == |Capacities(views)|
  {
    AgreedConsistent(views);
    DemandIsUnits(RowsOf(views));
    UnitsAreCapacities(views);
  }

  lemma ReadsAgreed(pool: seq<View>, views: seq<View>)
    requires Agreed(pool) && forall v :: v in views ==> v in pool
    ensures Agreed(views)
  {
    forall i, j | 0 <= i < j < |views|
      ensures PairAgreed(views[i], views[j])
    {
      assert views[i] in pool && views[j] in pool;
      var k :| 0 <= k < |pool| && pool[k] == views[i];
      var m :| 0 <= m < |pool| && pool[m] == views[j];
      assert k < m ==> PairAgreed(pool[k], pool[m]);
      assert m < k ==> PairAgreed(pool[m], pool[k]);
    }
  }

  lemma TwoMiscounted(a: View, b: View)
    requires !PairAgreed(a, b)
    ensures |CountAll(RowsOf([a, b])).ids| == 1 && |Capacities([a, b])| == 2
  {
    var one, two := RowOf(a), RowOf(b);
    MoreViews([], a);
    MoreViews([a], b);
    assert [] + [a] == [a] && [a] + [b] == [a, b] && RowsOf([]) == [] && Capacities([]) == {};
    assert [one, two][..1] == [one] && [one][..0] == [];
    assert CountAll([one]) == Count(NOTHING, one);
    assert CountAll([one, two]) == Count(Count(NOTHING, one), two);
  }

  /** Where root IDs and group names hold no colon, groups that share a key are one group, so only
      the views of each bead need agree. */
  lemma ColonFreeAgreed(views: seq<View>)
    requires forall i :: 0 <= i < |views| && views[i].group.Some? ==>
               ColonFree(views[i].group.value.root) && ColonFree(views[i].group.value.name)
    requires forall i, j :: 0 <= i < j < |views| && views[i].id == views[j].id ==> views[i] == views[j]
    ensures Agreed(views)
  {
    forall i, j | 0 <= i < j < |views|
      ensures PairAgreed(views[i], views[j])
    {
      var a, b := views[i], views[j];
      KeyIsSet(a);
      KeyIsSet(b);
      if a.group.Some? && b.group.Some? && UnitKey(a) == UnitKey(b) {
        var g, h := a.group.value, b.group.value;
        GroupKeysDiffer(g.storeRef, g.root, g.name, h.storeRef, h.root, h.name);
      }
    }
  }
}
