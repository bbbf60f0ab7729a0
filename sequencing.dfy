/**
 * The stop sequencing rules as functions on the table: the two-phase
 * renumbering, the date resort, the manual move, the delete shift and the add
 * with its placeholder position, with the properties they promise. The
 * imperative versions that write one row at a time live in `StopStore`.
 */
module Sequencing {
  import opened Wrappers
  import opened Stops

  // ---------------------------------------------------------------------------
  // Single-row writes and the unique constraint
  // ---------------------------------------------------------------------------

  /** `parada.orden = value` on row k. */
  function WriteOrden(rows: seq<Parada>, k: nat, value: int): seq<Parada>
    requires k < |rows|
  {
    rows[k := rows[k].(orden := value)]
  }

  /** Writing `value` into row k's position clashes with no other stop of its trip. */
  predicate Free(rows: seq<Parada>, k: nat, value: int)
    requires k < |rows|
  {
    forall m :: 0 <= m < |rows| && m != k && rows[m].viajeId == rows[k].viajeId ==> rows[m].orden != value
  }

  /** A single write keeps `(viaje_id, orden)` unique exactly when the value is free. */
  lemma WriteKeepsUnique(rows: seq<Parada>, k: nat, value: int)
    requires k < |rows| && UniqueOrden(rows)
    ensures UniqueOrden(WriteOrden(rows, k, value)) <==> Free(rows, k, value)
  {
    var r := WriteOrden(rows, k, value);
    if !Free(rows, k, value) {
      var m :| 0 <= m < |rows| && m != k && rows[m].viajeId == rows[k].viajeId && rows[m].orden == value;
      assert r[m].orden == r[k].orden;
    }
  }

  /** The table after the writes `vals[j]` into row `order[j]`, for j < n, in that order. */
  function Assign(rows: seq<Parada>, order: seq<nat>, vals: seq<int>, n: nat): (r: seq<Parada>)
    requires InRange(rows, order) && n <= |order| && n <= |vals|
    ensures |r| == |rows|
    ensures forall k :: 0 <= k < |rows| ==> r[k] == rows[k].(orden := r[k].orden)
  {
    if n == 0 then rows
    else WriteOrden(Assign(rows, order, vals, n - 1), order[n - 1], vals[n - 1])
  }

  /** With no index listed twice, row `order[j]` ends with `vals[j]` and unlisted rows are untouched. */
  lemma {:induction false} AssignFacts(rows: seq<Parada>, order: seq<nat>, vals: seq<int>, n: nat)
    requires InRange(rows, order) && Distinct(order) && n <= |order| && n <= |vals|
    ensures forall j :: 0 <= j < n ==> Assign(rows, order, vals, n)[order[j]] == rows[order[j]].(orden := vals[j])
    ensures forall k: nat :: k < |rows| && k !in order[..n] ==> Assign(rows, order, vals, n)[k] == rows[k]
  {
    if n > 0 {
      AssignFacts(rows, order, vals, n - 1);
      forall k: nat | k < |rows| && k !in order[..n]
        ensures Assign(rows, order, vals, n)[k] == rows[k]
      {
        assert order[..n] == order[..n - 1] + [order[n - 1]];
      }
      forall j | 0 <= j < n - 1
        ensures Assign(rows, order, vals, n)[order[j]] == rows[order[j]].(orden := vals[j])
      {
        assert order[j] != order[n - 1];
      }
    }
  }

  // ---------------------------------------------------------------------------
  // Two-phase renumbering
  // ---------------------------------------------------------------------------

  /** Phase 1 values: `-(i + offset)` for the i-th stop (offset 1000 in resort, 1 in move). */
  function Temps(n: nat, offset: int): seq<int>
  {
    seq(n, i => -(i + offset))
  }

  /** Phase 2 values: `i + 1` for the i-th stop. */
  function Finals(n: nat): seq<int>
  {
    seq(n, i => i + 1)
  }

  /** `order` lists every stop of trip v exactly once. */
  ghost predicate Covers(rows: seq<Parada>, order: seq<nat>, v: int)
  {
    && InRange(rows, order) && Distinct(order)
    && |order| == TripSize(rows, v)
    && (forall k: nat :: k in order <==> k < |rows| && rows[k].viajeId == v)
  }

  /** The table once phase 2 has given the stop at index j of `order` the position j + 1. */
  function Renumbered(rows: seq<Parada>, order: seq<nat>): seq<Parada>
    requires InRange(rows, order)
  {
    Assign(rows, order, Finals(|order|), |order|)
  }

  /** An index of `order` for one of its elements. */
  lemma IndexOf(order: seq<nat>, k: nat) returns (j: nat)
    requires k in order
    ensures j < |order| && order[j] == k
  {
    j :| 0 <= j < |order| && order[j] == k;
  }

  /**
   * The table once the stops `order[j]` with `done[j]` hold `vals[j]` and
   * every other row is as in `rows`. The writes may have been issued in any
   * order: the flush sends the UPDATEs in the order the ORM chooses, not in
   * the order the loop set the attributes.
   */
  ghost predicate WrittenAt(s: seq<Parada>, rows: seq<Parada>, order: seq<nat>, vals: seq<int>, done: seq<bool>)
    requires InRange(rows, order) && |vals| == |order| && |done| == |order|
  {
    && |s| == |rows|
    && (forall j :: 0 <= j < |order| ==>
          s[order[j]] == rows[order[j]].(orden := if done[j] then vals[j] else rows[order[j]].orden))
    && (forall k :: 0 <= k < |rows| && k !in order ==> s[k] == rows[k])
  }

  /** Writing along the list is one such order: after n writes exactly the first n stops are written. */
  lemma AssignWrittenAt(rows: seq<Parada>, order: seq<nat>, vals: seq<int>, n: nat)
    requires InRange(rows, order) && Distinct(order) && n <= |order| && |vals| == |order|
    ensures WrittenAt(Assign(rows, order, vals, n), rows, order, vals, seq(|order|, j => j < n))
  {
    var s := Assign(rows, order, vals, n);
    AssignFacts(rows, order, vals, n);
    forall j | n <= j < |order|
      ensures s[order[j]] == rows[order[j]]
    {
      assert forall t :: 0 <= t < n ==> order[..n][t] != order[j];
    }
    forall k | 0 <= k < |rows| && k !in order
      ensures s[k] == rows[k]
    {
      assert forall t :: 0 <= t < n ==> order[..n][t] == order[t];
    }
  }

  /** One more write, to any stop not yet written, gives the table with that stop marked written. */
  lemma WrittenAtStep(s: seq<Parada>, rows: seq<Parada>, order: seq<nat>, vals: seq<int>, done: seq<bool>, i: nat)
    requires InRange(rows, order) && Distinct(order) && |vals| == |order| && |done| == |order|
    requires WrittenAt(s, rows, order, vals, done) && i < |order| && !done[i]
    ensures WrittenAt(WriteOrden(s, order[i], vals[i]), rows, order, vals, done[i := true])
  {
    var t := WriteOrden(s, order[i], vals[i]);
    forall j | 0 <= j < |order| && j != i
      ensures t[order[j]] == s[order[j]]
    {
      assert order[j] != order[i];
    }
  }

  /** Once every stop is written, the order of the writes leaves no trace: the table is the list-order one. */
  lemma AllWrittenIsAssign(s: seq<Parada>, rows: seq<Parada>, order: seq<nat>, vals: seq<int>)
    requires InRange(rows, order) && Distinct(order) && |vals| == |order|
    requires WrittenAt(s, rows, order, vals, seq(|order|, j => true))
    ensures s == Assign(rows, order, vals, |order|)
  {
    var a := Assign(rows, order, vals, |order|);
    AssignWrittenAt(rows, order, vals, |order|);
    forall k | 0 <= k < |rows|
      ensures s[k] == a[k]
    {
      if k in order {
        var j := IndexOf(order, k);
      }
    }
  }

  /**
   * Phase 1 never clashes, whatever order the writes reach the database in:
   * an unwritten stop's temporary differs from the other temporaries already
   * written, and every unwritten stop still holds its old, non-negative position.
   */
  lemma PhaseOneFreeAnyOrder(rows: seq<Parada>, order: seq<nat>, v: int, offset: int, s: seq<Parada>, done: seq<bool>, i: nat)
    requires Covers(rows, order, v) && NonNegative(rows) && offset >= 1
    requires |done| == |order| && WrittenAt(s, rows, order, Temps(|order|, offset), done)
    requires i < |order| && !done[i]
    ensures Free(s, order[i], -(i + offset))
  {
    var vals := Temps(|order|, offset);
    forall m | 0 <= m < |s| && m != order[i] && s[m].viajeId == s[order[i]].viajeId
      ensures s[m].orden != -(i + offset)
    {
      if m in order {
        var j := IndexOf(order, m);
        if done[j] {
          assert s[m].orden == vals[j];
        }
      }
    }
  }

  /**
   * Phase 2 never clashes, whatever order the writes reach the database in:
   * the stops already written hold other final positions and the unwritten
   * ones still hold negative temporaries.
   */
  lemma PhaseTwoFreeAnyOrder(rows: seq<Parada>, order: seq<nat>, v: int, offset: int, s: seq<Parada>, done: seq<bool>, i: nat)
    requires Covers(rows, order, v) && offset >= 1 && i < |order| && |done| == |order| && !done[i]
    requires WrittenAt(s, Assign(rows, order, Temps(|order|, offset), |order|), order, Finals(|order|), done)
    ensures Free(s, order[i], i + 1)
  {
    var mid := Assign(rows, order, Temps(|order|, offset), |order|);
    AssignFacts(rows, order, Temps(|order|, offset), |order|);
    assert order[..|order|] == order;
    forall m | 0 <= m < |s| && m != order[i] && s[m].viajeId == s[order[i]].viajeId
      ensures s[m].orden != i + 1
    {
      if m in order {
        var j := IndexOf(order, m);
        assert mid[m].orden == -(j + offset);
      }
    }
  }

  /** Phase 1 along the list: the i-th temporary is free when the loop writes it. */
  lemma PhaseOneFree(rows: seq<Parada>, order: seq<nat>, v: int, offset: int, i: nat)
    requires Covers(rows, order, v) && NonNegative(rows) && offset >= 1 && i < |order|
    ensures Free(Assign(rows, order, Temps(|order|, offset), i), order[i], -(i + offset))
  {
    AssignWrittenAt(rows, order, Temps(|order|, offset), i);
    PhaseOneFreeAnyOrder(rows, order, v, offset, Assign(rows, order, Temps(|order|, offset), i), seq(|order|, j => j < i), i);
  }

  /** Phase 2 along the list: the final position i + 1 is free when the loop writes it. */
  lemma PhaseTwoFree(rows: seq<Parada>, order: seq<nat>, v: int, offset: int, i: nat)
    requires Covers(rows, order, v) && offset >= 1 && i < |order|
    ensures Free(Assign(Assign(rows, order, Temps(|order|, offset), |order|), order, Finals(|order|), i), order[i], i + 1)
  {
    var mid := Assign(rows, order, Temps(|order|, offset), |order|);
    AssignWrittenAt(mid, order, Finals(|order|), i);
    PhaseTwoFreeAnyOrder(rows, order, v, offset, Assign(mid, order, Finals(|order|), i), seq(|order|, j => j < i), i);
  }

  /** Phase 2 overwrites every temporary, so the two phases together leave the renumbered table. */
  lemma TwoPhaseResult(rows: seq<Parada>, order: seq<nat>, offset: int)
    requires InRange(rows, order) && Distinct(order)
    ensures Assign(Assign(rows, order, Temps(|order|, offset), |order|), order, Finals(|order|), |order|)
         == Renumbered(rows, order)
  {
    var n := |order|;
    var mid := Assign(rows, order, Temps(n, offset), n);
    var a := Assign(mid, order, Finals(n), n);
    var b := Renumbered(rows, order);
    AssignFacts(rows, order, Temps(n, offset), n);
    AssignFacts(mid, order, Finals(n), n);
    AssignFacts(rows, order, Finals(n), n);
    assert order[..n] == order;
    forall k | 0 <= k < |rows| ensures a[k] == b[k] {
      if k in order {
        var j := IndexOf(order, k);
      }
    }
  }

  /**
   * Renumbering gives the stop at index j of `order` position j + 1 and
   * touches no stop of another trip.
   */
  lemma RenumberedAt(rows: seq<Parada>, order: seq<nat>, v: int)
    requires Covers(rows, order, v)
    ensures forall j :: 0 <= j < |order| ==> Renumbered(rows, order)[order[j]] == rows[order[j]].(orden := j + 1)
    ensures forall k :: 0 <= k < |rows| && rows[k].viajeId != v ==> Renumbered(rows, order)[k] == rows[k]
  {
    AssignFacts(rows, order, Finals(|order|), |order|);
    assert order[..|order|] == order;
  }

  /** Renumbering one trip of a consistent table leaves it consistent, with the trip at 1..N. */
  lemma RenumberedFacts(rows: seq<Parada>, order: seq<nat>, v: int)
    requires Covers(rows, order, v) && Consistent(rows)
    ensures Consistent(Renumbered(rows, order)) && Contiguous(Renumbered(rows, order), v)
  {
    var r := Renumbered(rows, order);
    RenumberedAt(rows, order, v);
    assert UniqueOrden(r) by {
      forall i, j | 0 <= i < |r| && 0 <= j < |r| && i != j && r[i].viajeId == r[j].viajeId
        ensures r[i].orden != r[j].orden
      {
        if r[i].viajeId == v {
          var a := IndexOf(order, i);
          var b := IndexOf(order, j);
        }
      }
    }
    assert NonNegative(r) by {
      forall k | 0 <= k < |r| ensures r[k].orden >= 0 {
        if r[k].viajeId == v {
          var a := IndexOf(order, k);
        }
      }
    }
    RenumberedContiguous(rows, order, v);
  }

  lemma RenumberedContiguous(rows: seq<Parada>, order: seq<nat>, v: int)
    requires Covers(rows, order, v)
    ensures Contiguous(Renumbered(rows, order), v)
  {
    var r := Renumbered(rows, order);
    RenumberedAt(rows, order, v);
    SameTrips(rows, r, v);
    forall i, j | 0 <= i < |r| && 0 <= j < |r| && i != j && r[i].viajeId == v && r[j].viajeId == v
      ensures r[i].orden != r[j].orden
    {
      var a := IndexOf(order, i);
      var b := IndexOf(order, j);
    }
    forall k | 0 <= k < |r| && r[k].viajeId == v ensures 1 <= r[k].orden <= |order| {
      var a := IndexOf(order, k);
    }
    OrdenSetBounded(r, v, |order|);
    forall x | 1 <= x <= |order| ensures x in OrdenSet(r, v) {
      var k := order[x - 1];
      assert r[k].orden == x;
    }
    PositionsExactly(|order|, OrdenSet(r, v));
  }

  // ---------------------------------------------------------------------------
  // Date resort (reordenar_paradas_por_fecha)
  // ---------------------------------------------------------------------------

  /** `sorted(paradas, key=(fecha_llegada, fecha_salida, destino.lower(), id))` over trip v. */
  function ResortOrder(rows: seq<Parada>, v: int): seq<nat>
  {
    Sort(rows, ByDate, TripIndices(rows, v))
  }

  /** A trip with at most one stop is left alone; otherwise its stops get 1..N in date order. */
  function Resort(rows: seq<Parada>, v: int): seq<Parada>
  {
    if |TripIndices(rows, v)| <= 1 then rows else Renumbered(rows, ResortOrder(rows, v))
  }

  /** The resort order lists trip v once each, ascending by the date key. */
  lemma ResortOrderFacts(rows: seq<Parada>, v: int)
    requires Consistent(rows)
    ensures Covers(rows, ResortOrder(rows, v), v) && Sorted(rows, ByDate, ResortOrder(rows, v))
  {
    var t := TripIndices(rows, v);
    TripIndicesDistinct(rows, v);
    TripComparable(rows, ByDate, v);
    SortSorted(rows, ByDate, t);
    SortedDistinct(rows, ByDate, ResortOrder(rows, v));
    assert forall k: nat :: k in ResortOrder(rows, v) <==> k in multiset(ResortOrder(rows, v));
  }

  /**
   * The date order is deterministic: any strictly ascending listing of trip v's
   * stops is the resort order, because the id in the key breaks every tie.
   */
  lemma ResortOrderUnique(rows: seq<Parada>, v: int, a: seq<nat>)
    requires Consistent(rows) && InRange(rows, a)
    requires multiset(a) == multiset(TripIndices(rows, v)) && Sorted(rows, ByDate, a)
    ensures a == ResortOrder(rows, v)
  {
    ResortOrderFacts(rows, v);
    SortedUnique(rows, ByDate, a, ResortOrder(rows, v));
  }

  /**
   * After the resort of a trip with two or more stops, one stop precedes another
   * exactly when its date key is smaller, the positions are 1..N, other trips and
   * all other fields are unchanged, and the table stays consistent.
   */
  lemma ResortFacts(rows: seq<Parada>, v: int)
    requires Consistent(rows)
    ensures var r := Resort(rows, v);
      && Consistent(r)
      && (TripSize(rows, v) >= 2 ==> Contiguous(r, v))
      && (TripSize(rows, v) >= 2 ==> forall i, j :: 0 <= i < |rows| && 0 <= j < |rows| && rows[i].viajeId == v && rows[j].viajeId == v ==>
            (r[i].orden < r[j].orden <==> DateBefore(rows[i], rows[j])))
      && (forall k :: 0 <= k < |rows| && rows[k].viajeId != v ==> r[k] == rows[k])
      && |r| == |rows| && (forall k :: 0 <= k < |rows| ==> r[k] == rows[k].(orden := r[k].orden))
  {
    ResortFrame(rows, v);
    ResortOthers(rows, v);
    if TripSize(rows, v) >= 2 {
      ResortContiguous(rows, v);
      ResortDateOrder(rows, v);
    }
  }

  lemma ResortContiguous(rows: seq<Parada>, v: int)
    requires Consistent(rows) && TripSize(rows, v) >= 2
    ensures Contiguous(Resort(rows, v), v)
  {
    ResortOrderFacts(rows, v);
    RenumberedFacts(rows, ResortOrder(rows, v), v);
  }

  lemma ResortOthers(rows: seq<Parada>, v: int)
    requires Consistent(rows)
    ensures var r := Resort(rows, v);
      forall k :: 0 <= k < |rows| && rows[k].viajeId != v ==> r[k] == rows[k]
  {
    if |TripIndices(rows, v)| > 1 {
      ResortOrderFacts(rows, v);
      RenumberedAt(rows, ResortOrder(rows, v), v);
    }
  }

  lemma ResortDateOrder(rows: seq<Parada>, v: int)
    requires Consistent(rows) && TripSize(rows, v) >= 2
    ensures var r := Resort(rows, v);
      forall i, j :: 0 <= i < |rows| && 0 <= j < |rows| && rows[i].viajeId == v && rows[j].viajeId == v ==>
        (r[i].orden < r[j].orden <==> DateBefore(rows[i], rows[j]))
  {
    var order := ResortOrder(rows, v);
    var r := Resort(rows, v);
    ResortOrderFacts(rows, v);
    RenumberedAt(rows, order, v);
    forall i, j | 0 <= i < |rows| && 0 <= j < |rows| && rows[i].viajeId == v && rows[j].viajeId == v
      ensures r[i].orden < r[j].orden <==> DateBefore(rows[i], rows[j])
    {
      var a := IndexOf(order, i);
      var b := IndexOf(order, j);
      BeforeIrreflexive(ByDate, rows[i]);
      if b < a {
        assert DateBefore(rows[j], rows[i]);
        if DateBefore(rows[i], rows[j]) {
          BeforeTransitive(ByDate, rows[i], rows[j], rows[i]);
        }
      }
    }
  }

  /** The resort order depends on every field but `orden`. */
  lemma ResortOrderIgnoresOrden(rows: seq<Parada>, r: seq<Parada>, v: int)
    requires Consistent(rows) && Consistent(r) && |r| == |rows|
    requires forall k :: 0 <= k < |rows| ==> r[k] == rows[k].(orden := r[k].orden)
    ensures ResortOrder(r, v) == ResortOrder(rows, v)
  {
    SameTrips(rows, r, v);
    ResortOrderFacts(rows, v);
    ResortOrderFacts(r, v);
    var order' := ResortOrder(r, v);
    assert Sorted(rows, ByDate, order') by {
      forall i, j | 0 <= i < j < |order'| ensures DateBefore(rows[order'[i]], rows[order'[j]]) {
        assert DateBefore(r[order'[i]], r[order'[j]]);
      }
    }
    SortedUnique(rows, ByDate, order', ResortOrder(rows, v));
  }

  /** Renumbering a trip whose stops already sit at their index + 1 changes nothing. */
  lemma RenumberedFixed(rows: seq<Parada>, order: seq<nat>, v: int)
    requires Covers(rows, order, v)
    requires forall j :: 0 <= j < |order| ==> rows[order[j]].orden == j + 1
    ensures Renumbered(rows, order) == rows
  {
    var r := Renumbered(rows, order);
    RenumberedAt(rows, order, v);
    forall k | 0 <= k < |r| ensures r[k] == rows[k] {
      if rows[k].viajeId == v {
        var j := IndexOf(order, k);
      }
    }
  }

  /** The resort ignores the positions it starts from, so resorting twice is resorting once. */
  lemma ResortIdempotent(rows: seq<Parada>, v: int)
    requires Consistent(rows)
    ensures Resort(Resort(rows, v), v) == Resort(rows, v)
  {
    var r := Resort(rows, v);
    if |TripIndices(rows, v)| > 1 {
      var order := ResortOrder(rows, v);
      ResortFrame(rows, v);
      SameTrips(rows, r, v);
      ResortOrderIgnoresOrden(rows, r, v);
      ResortOrderFacts(r, v);
      RenumberedAt(rows, order, v);
      RenumberedFixed(r, order, v);
    }
  }

  /** The resort keeps the table consistent and changes nothing but positions. */
  lemma ResortFrame(rows: seq<Parada>, v: int)
    requires Consistent(rows)
    ensures var r := Resort(rows, v);
      && Consistent(r)
      && |r| == |rows| && (forall k :: 0 <= k < |rows| ==> r[k] == rows[k].(orden := r[k].orden))
  {
    if |TripIndices(rows, v)| > 1 {
      var order := ResortOrder(rows, v);
      ResortOrderFacts(rows, v);
      RenumberedAt(rows, order, v);
      RenumberedFacts(rows, order, v);
    }
  }

  // ---------------------------------------------------------------------------
  // Manual move (reordenar_parada / reordenar_parada_especifica)
  // ---------------------------------------------------------------------------

  /** `nueva_posicion` pulled into 0..hi: below 0 becomes 0, above hi becomes hi. */
  function Clamp(x: int, hi: nat): nat
  {
    if x < 0 then 0 else if x > hi then hi else x
  }

  /** The loop that appends every stop but the moved one to `paradas_temp`. */
  function Without(s: seq<nat>, k: nat): (r: seq<nat>)
    ensures forall x :: x in r <==> x in s && x != k
  {
    if s == [] then []
    else
      assert s == s[..|s| - 1] + [s[|s| - 1]];
      Without(s[..|s| - 1], k) + (if s[|s| - 1] == k then [] else [s[|s| - 1]])
  }

  lemma {:induction false} WithoutAbsent(s: seq<nat>, k: nat)
    requires k !in s
    ensures Without(s, k) == s
  {
    if s != [] {
      var n := |s| - 1;
      var p := s[..n];
      assert s[n] in s;
      assert forall i :: 0 <= i < n ==> p[i] == s[i];
      WithoutAbsent(p, k);
      assert s == p + [s[n]];
    }
  }

  lemma DistinctPrefix(s: seq<nat>, n: nat)
    requires Distinct(s) && n <= |s|
    ensures Distinct(s[..n])
  {
    assert forall i :: 0 <= i < n ==> s[..n][i] == s[i];
  }

  /** Taking out an element that occurs once shortens the list by one. */
  lemma {:induction false} WithoutLength(s: seq<nat>, k: nat)
    requires Distinct(s) && k in s
    ensures |Without(s, k)| == |s| - 1
  {
    var n := |s| - 1;
    DistinctPrefix(s, n);
    assert s == s[..n] + [s[n]];
    if s[n] == k {
      assert k !in s[..n];
      WithoutAbsent(s[..n], k);
    } else {
      WithoutLength(s[..n], k);
    }
  }

  /** Taking an element out of a sorted list leaves it sorted: the others keep their order. */
  lemma {:induction false} WithoutSorted(rows: seq<Parada>, c: Criterion, s: seq<nat>, k: nat)
    requires InRange(rows, s) && Sorted(rows, c, s)
    ensures InRange(rows, Without(s, k)) && Sorted(rows, c, Without(s, k))
  {
    if s != [] {
      var n := |s| - 1;
      var p := s[..n];
      assert forall i :: 0 <= i < n ==> p[i] == s[i];
      WithoutSorted(rows, c, p, k);
      var t := Without(p, k);
      if s[n] != k {
        var r := t + [s[n]];
        forall j | 0 <= j < |t| ensures Before(c, rows[t[j]], rows[s[n]]) {
          var m := IndexOf(p, t[j]);
        }
        forall i | 0 <= i < |r| ensures r[i] < |rows| {
          if i < |t| { assert r[i] == t[i]; }
        }
        forall i, j | 0 <= i < j < |r| ensures Before(c, rows[r[i]], rows[r[j]]) {
          assert r[i] == t[i];
          if j < |t| { assert r[j] == t[j]; }
        }
      }
    }
  }

  /** `list.insert(pos, k)`. */
  function Splice(rest: seq<nat>, pos: nat, k: nat): (o: seq<nat>)
    requires pos <= |rest|
    ensures |o| == |rest| + 1 && o[pos] == k
    ensures forall a :: 0 <= a < |o| ==> o[a] == if a < pos then rest[a] else if a == pos then k else rest[a - 1]
  {
    rest[..pos] + [k] + rest[pos..]
  }

  /** Every index of `s` occurs in `t`, so it addresses a row when `t`'s do. */
  lemma InRangeBy(rows: seq<Parada>, s: seq<nat>, t: seq<nat>)
    requires InRange(rows, t) && forall x :: x in s ==> x in t
    ensures InRange(rows, s)
  {
    forall i | 0 <= i < |s| ensures s[i] < |rows| {
      var j := IndexOf(t, s[i]);
    }
  }

  /** Inserting a new stop into a strictly position-sorted list keeps the list repetition-free. */
  lemma SpliceDistinct(rows: seq<Parada>, rest: seq<nat>, pos: nat, k: nat)
    requires pos <= |rest| && InRange(rows, rest) && Sorted(rows, ByOrden, rest) && k !in rest
    ensures Distinct(Splice(rest, pos, k))
  {
    var o := Splice(rest, pos, k);
    SortedDistinct(rows, ByOrden, rest);
    forall a, b | 0 <= a < |o| && 0 <= b < |o| && a != b ensures o[a] != o[b] {
      if a != pos && b != pos {
        var a' := if a < pos then a else a - 1;
        var b' := if b < pos then b else b - 1;
        assert o[a] == rest[a'] && o[b] == rest[b'];
      }
    }
  }

  /** After the insert, the other stops are still in ascending order of position. */
  lemma SpliceOrder(rows: seq<Parada>, rest: seq<nat>, pos: nat, k: nat)
    requires pos <= |rest| && InRange(rows, rest) && Sorted(rows, ByOrden, rest)
    ensures var o := Splice(rest, pos, k);
      forall a, b :: 0 <= a < b < |o| && a != pos && b != pos ==> rows[o[a]].orden < rows[o[b]].orden
  {
    var o := Splice(rest, pos, k);
    forall a, b | 0 <= a < b < |o| && a != pos && b != pos ensures rows[o[a]].orden < rows[o[b]].orden {
      var a' := if a < pos then a else a - 1;
      var b' := if b < pos then b else b - 1;
      assert o[a] == rest[a'] && o[b] == rest[b'];
    }
  }

  /** The trip's stops by current position (`order_by(Parada.orden)`), without the moved stop. */
  lemma WithoutSnoc(s: seq<nat>, k: nat, j: nat)
    requires j < |s|
    ensures Without(s[..j + 1], k) == Without(s[..j], k) + (if s[j] == k then [] else [s[j]])
  {
    assert s[..j + 1][..j] == s[..j];
  }

  function Others(rows: seq<Parada>, k: nat): seq<nat>
    requires k < |rows|
  {
    Without(Sort(rows, ByOrden, TripIndices(rows, rows[k].viajeId)), k)
  }

  /** `paradas_temp` after the moved stop is put back at the clamped `nuevo_orden - 1`. */
  function MoveOrder(rows: seq<Parada>, k: nat, nuevo: int): (r: seq<nat>)
    requires k < |rows|
    ensures InRange(rows, r)
  {
    var rest := Others(rows, k);
    var o := Splice(rest, Clamp(nuevo - 1, |rest|), k);
    var t := Sort(rows, ByOrden, TripIndices(rows, rows[k].viajeId));
    InRangeBy(rows, rest, t);
    assert forall x :: x in o ==> x in rest || x == k;
    InRangeBy(rows, o, rest + [k]);
    o
  }

  /** A move to the current position writes nothing; any other target renumbers the trip. */
  function Move(rows: seq<Parada>, k: nat, nuevo: int): seq<Parada>
    requires k < |rows|
  {
    if rows[k].orden == nuevo then rows else Renumbered(rows, MoveOrder(rows, k, nuevo))
  }

  /** The trip by position lists it once each, in ascending position, the moved stop among them. */
  lemma ByPositionFacts(rows: seq<Parada>, k: nat)
    requires Consistent(rows) && k < |rows|
    ensures var t := Sort(rows, ByOrden, TripIndices(rows, rows[k].viajeId));
      && Sorted(rows, ByOrden, t) && Distinct(t) && k in t
      && |t| == TripSize(rows, rows[k].viajeId)
      && (forall x: nat :: x in t <==> x < |rows| && rows[x].viajeId == rows[k].viajeId)
  {
    var v := rows[k].viajeId;
    var t := TripIndices(rows, v);
    var sorted := Sort(rows, ByOrden, t);
    TripIndicesDistinct(rows, v);
    TripComparable(rows, ByOrden, v);
    SortSorted(rows, ByOrden, t);
    SortedDistinct(rows, ByOrden, sorted);
    assert forall x: nat :: x in sorted <==> x in multiset(t);
  }

  /**
   * The move order lists the trip once each, holds the moved stop at the
   * clamped index and the other stops in ascending order of their old position.
   */
  lemma MoveOrderFacts(rows: seq<Parada>, k: nat, nuevo: int)
    requires Consistent(rows) && k < |rows|
    ensures var o, pos := MoveOrder(rows, k, nuevo), Clamp(nuevo - 1, TripSize(rows, rows[k].viajeId) - 1);
      && Covers(rows, o, rows[k].viajeId)
      && pos < |o| && o[pos] == k
      && (forall a, b :: 0 <= a < b < |o| && a != pos && b != pos ==> rows[o[a]].orden < rows[o[b]].orden)
  {
    MoveOrderCovers(rows, k, nuevo);
    MoveOrderSorted(rows, k, nuevo);
  }

  /** The list without the moved stop is one shorter than the trip and still in position order. */
  lemma OthersFacts(rows: seq<Parada>, k: nat)
    requires Consistent(rows) && k < |rows|
    ensures |Others(rows, k)| == TripSize(rows, rows[k].viajeId) - 1
    ensures InRange(rows, Others(rows, k)) && Sorted(rows, ByOrden, Others(rows, k)) && k !in Others(rows, k)
  {
    var sorted := Sort(rows, ByOrden, TripIndices(rows, rows[k].viajeId));
    ByPositionFacts(rows, k);
    WithoutLength(sorted, k);
    WithoutSorted(rows, ByOrden, sorted, k);
  }

  lemma MoveOrderCovers(rows: seq<Parada>, k: nat, nuevo: int)
    requires Consistent(rows) && k < |rows|
    ensures Covers(rows, MoveOrder(rows, k, nuevo), rows[k].viajeId)
  {
    var rest := Others(rows, k);
    OthersFacts(rows, k);
    SpliceDistinct(rows, rest, Clamp(nuevo - 1, |rest|), k);
    MoveOrderMembers(rows, k, nuevo);
  }

  lemma MoveOrderMembers(rows: seq<Parada>, k: nat, nuevo: int)
    requires Consistent(rows) && k < |rows|
    ensures forall x: nat :: x in MoveOrder(rows, k, nuevo) <==> x < |rows| && rows[x].viajeId == rows[k].viajeId
  {
    var rest := Others(rows, k);
    var t := Sort(rows, ByOrden, TripIndices(rows, rows[k].viajeId));
    var o := MoveOrder(rows, k, nuevo);
    ByPositionFacts(rows, k);
    SpliceMembers(rest, Clamp(nuevo - 1, |rest|), k);
    assert o == Splice(rest, Clamp(nuevo - 1, |rest|), k);
    forall x: nat ensures x in o <==> x < |rows| && rows[x].viajeId == rows[k].viajeId {
      assert x in o <==> x in rest || x == k;
      assert x in rest <==> x in t && x != k;
    }
  }

  lemma SpliceMembers(rest: seq<nat>, pos: nat, k: nat)
    requires pos <= |rest|
    ensures forall x :: x in Splice(rest, pos, k) <==> x in rest || x == k
  {
    assert rest == rest[..pos] + rest[pos..];
  }

  lemma MoveOrderSorted(rows: seq<Parada>, k: nat, nuevo: int)
    requires Consistent(rows) && k < |rows|
    ensures var o, pos := MoveOrder(rows, k, nuevo), Clamp(nuevo - 1, TripSize(rows, rows[k].viajeId) - 1);
      && pos < |o| && o[pos] == k
      && (forall a, b :: 0 <= a < b < |o| && a != pos && b != pos ==> rows[o[a]].orden < rows[o[b]].orden)
  {
    var rest := Others(rows, k);
    OthersFacts(rows, k);
    SpliceOrder(rows, rest, Clamp(nuevo - 1, |rest|), k);
  }

  /**
   * A move to a new target renumbers the trip to 1..N, keeps the table
   * consistent, and touches no other trip and no other field.
   */
  lemma MoveFacts(rows: seq<Parada>, k: nat, nuevo: int)
    requires Consistent(rows) && k < |rows| && rows[k].orden != nuevo
    ensures var r := Move(rows, k, nuevo);
      && Consistent(r) && Contiguous(r, rows[k].viajeId)
      && (forall i :: 0 <= i < |rows| && rows[i].viajeId != rows[k].viajeId ==> r[i] == rows[i])
      && |r| == |rows| && (forall i :: 0 <= i < |rows| ==> r[i] == rows[i].(orden := r[i].orden))
  {
    var o := MoveOrder(rows, k, nuevo);
    MoveOrderFacts(rows, k, nuevo);
    RenumberedAt(rows, o, rows[k].viajeId);
    RenumberedFacts(rows, o, rows[k].viajeId);
  }

  /**
   * The moved stop ends at the target clamped into 1..N: first when the target
   * is below 1, last when it is beyond N; neither is an error.
   */
  lemma MovePlacesStop(rows: seq<Parada>, k: nat, nuevo: int)
    requires Consistent(rows) && k < |rows| && rows[k].orden != nuevo
    ensures var r, n := Move(rows, k, nuevo), TripSize(rows, rows[k].viajeId);
      && (nuevo <= 1 ==> r[k].orden == 1)
      && (nuevo >= n ==> r[k].orden == n)
      && (1 <= nuevo <= n ==> r[k].orden == nuevo)
  {
    var v := rows[k].viajeId;
    var o := MoveOrder(rows, k, nuevo);
    var pos := Clamp(nuevo - 1, TripSize(rows, v) - 1);
    MoveOrderFacts(rows, k, nuevo);
    RenumberedAt(rows, o, v);
    assert Move(rows, k, nuevo) == Renumbered(rows, o);
    assert Renumbered(rows, o)[o[pos]].orden == pos + 1;
  }

  /** The other stops of the trip keep their previous relative order. */
  lemma MoveKeepsOthersOrder(rows: seq<Parada>, k: nat, nuevo: int)
    requires Consistent(rows) && k < |rows|
    ensures var r, v := Move(rows, k, nuevo), rows[k].viajeId;
      forall i, j :: 0 <= i < |rows| && 0 <= j < |rows| && i != k && j != k && rows[i].viajeId == v && rows[j].viajeId == v ==>
        (r[i].orden < r[j].orden <==> rows[i].orden < rows[j].orden)
  {
    var v := rows[k].viajeId;
    if rows[k].orden != nuevo {
      var o := MoveOrder(rows, k, nuevo);
      MoveOrderFacts(rows, k, nuevo);
      RenumberedAt(rows, o, v);
      forall i, j | 0 <= i < |rows| && 0 <= j < |rows| && i != k && j != k && rows[i].viajeId == v && rows[j].viajeId == v
        ensures Move(rows, k, nuevo)[i].orden < Move(rows, k, nuevo)[j].orden <==> rows[i].orden < rows[j].orden
      {
        MoveKeepsPair(rows, k, nuevo, i, j);
      }
    }
  }

  lemma MoveKeepsPair(rows: seq<Parada>, k: nat, nuevo: int, i: nat, j: nat)
    requires Consistent(rows) && k < |rows| && rows[k].orden != nuevo
    requires i < |rows| && j < |rows| && i != k && j != k && rows[i].viajeId == rows[k].viajeId && rows[j].viajeId == rows[k].viajeId
    requires var o, pos := MoveOrder(rows, k, nuevo), Clamp(nuevo - 1, TripSize(rows, rows[k].viajeId) - 1);
      && Covers(rows, o, rows[k].viajeId) && pos < |o| && o[pos] == k
      && (forall a, b :: 0 <= a < b < |o| && a != pos && b != pos ==> rows[o[a]].orden < rows[o[b]].orden)
      && (forall a :: 0 <= a < |o| ==> Renumbered(rows, o)[o[a]] == rows[o[a]].(orden := a + 1))
    ensures Move(rows, k, nuevo)[i].orden < Move(rows, k, nuevo)[j].orden <==> rows[i].orden < rows[j].orden
  {
    var o := MoveOrder(rows, k, nuevo);
    var a := IndexOf(o, i);
    var b := IndexOf(o, j);
    if a == b {
      assert i == j;
    }
  }

  // ---------------------------------------------------------------------------
  // Delete (eliminar_parada)
  // ---------------------------------------------------------------------------

  lemma {:induction false} TripSizeConcat(a: seq<Parada>, b: seq<Parada>, v: int)
    ensures TripSize(a + b, v) == TripSize(a, v) + TripSize(b, v)
  {
    if |b| > 0 {
      TripSizeConcat(a, b[..|b| - 1], v);
      assert (a + b)[..|a + b| - 1] == a + b[..|b| - 1];
    } else {
      assert a + b == a;
    }
  }

  /** `db.session.delete(parada)`: row k leaves the table. */
  function Remove(rows: seq<Parada>, k: nat): seq<Parada>
    requires k < |rows|
  {
    rows[..k] + rows[k + 1..]
  }

  /** Removing a stop of trip v leaves one stop fewer in v and as many in every other trip. */
  lemma RemoveTripSize(rows: seq<Parada>, k: nat, w: int)
    requires k < |rows|
    ensures TripSize(Remove(rows, k), w) == TripSize(rows, w) - (if rows[k].viajeId == w then 1 else 0)
  {
    assert rows == rows[..k] + [rows[k]] + rows[k + 1..];
    TripSizeConcat(rows[..k] + [rows[k]], rows[k + 1..], w);
    TripSizeConcat(rows[..k], [rows[k]], w);
    TripSizeConcat(rows[..k], rows[k + 1..], w);
    assert [rows[k]][..0] == [];
  }

  /** The bulk update: every stop of trip v above position `o` moves down by one. */
  function ShiftDown(rows: seq<Parada>, v: int, o: int): (r: seq<Parada>)
    ensures |r| == |rows|
  {
    seq(|rows|, i requires 0 <= i < |rows| =>
      if rows[i].viajeId == v && rows[i].orden > o then rows[i].(orden := rows[i].orden - 1) else rows[i])
  }

  /** Deleting row k, then closing the gap it leaves in its trip. */
  function Delete(rows: seq<Parada>, k: nat): seq<Parada>
    requires k < |rows|
  {
    ShiftDown(Remove(rows, k), rows[k].viajeId, rows[k].orden)
  }

  /** The index in the table before the delete of the row at index i after it. */
  function Survivor(k: nat, i: nat): nat
  {
    if i < k then i else i + 1
  }

  /**
   * The delete removes exactly the stop, lowers by one exactly the stops of its
   * trip above it, and keeps the table consistent.
   */
  lemma DeleteFacts(rows: seq<Parada>, k: nat)
    requires Consistent(rows) && k < |rows|
    ensures var r, v, o := Delete(rows, k), rows[k].viajeId, rows[k].orden;
      && |r| == |rows| - 1 && Consistent(r)
      && (forall i :: 0 <= i < |r| ==> r[i] == rows[Survivor(k, i)].(orden := r[i].orden))
      && (forall i :: 0 <= i < |r| && rows[Survivor(k, i)].viajeId == v && rows[Survivor(k, i)].orden > o ==>
            r[i].orden == rows[Survivor(k, i)].orden - 1)
      && (forall i :: 0 <= i < |r| && (rows[Survivor(k, i)].viajeId != v || rows[Survivor(k, i)].orden < o) ==>
            r[i] == rows[Survivor(k, i)])
  {
    var r, v, o := Delete(rows, k), rows[k].viajeId, rows[k].orden;
    DeleteUnique(rows, k);
    forall i | 0 <= i < |r|
      ensures r[i] == rows[Survivor(k, i)].(orden := r[i].orden) && r[i].orden >= 0
      ensures rows[Survivor(k, i)].viajeId == v && rows[Survivor(k, i)].orden > o ==> r[i].orden == rows[Survivor(k, i)].orden - 1
      ensures rows[Survivor(k, i)].viajeId != v || rows[Survivor(k, i)].orden < o ==> r[i] == rows[Survivor(k, i)]
    {
      DeleteAt(rows, k, i);
    }
    forall i, j | 0 <= i < |r| && 0 <= j < |r| && i != j
      ensures r[i].id != r[j].id
    {
      assert Survivor(k, i) != Survivor(k, j);
    }
  }

  /** The row at index i after the delete is the surviving row, lowered by one when it sat above the gap. */
  lemma DeleteAt(rows: seq<Parada>, k: nat, i: nat)
    requires k < |rows| && i < |rows| - 1
    ensures |Delete(rows, k)| == |rows| - 1
    ensures var p, v, o := rows[Survivor(k, i)], rows[k].viajeId, rows[k].orden;
      Delete(rows, k)[i] == if p.viajeId == v && p.orden > o then p.(orden := p.orden - 1) else p
  {
    assert Remove(rows, k)[i] == rows[Survivor(k, i)];
  }

  /** The delete keeps the unique constraint. */
  lemma DeleteUnique(rows: seq<Parada>, k: nat)
    requires Consistent(rows) && k < |rows|
    ensures UniqueOrden(Delete(rows, k))
  {
    var r := Delete(rows, k);
    forall i, j | 0 <= i < |r| && 0 <= j < |r| && i != j && r[i].viajeId == r[j].viajeId
      ensures r[i].orden != r[j].orden
    {
      DeleteAt(rows, k, i);
      DeleteAt(rows, k, j);
      assert Survivor(k, i) != Survivor(k, j) && Survivor(k, i) != k && Survivor(k, j) != k;
    }
  }

  /** The other stops of the trip keep their relative order. */
  lemma DeleteKeepsOrder(rows: seq<Parada>, k: nat)
    requires Consistent(rows) && k < |rows|
    ensures var r, v := Delete(rows, k), rows[k].viajeId;
      forall i, j :: 0 <= i < |r| && 0 <= j < |r| && r[i].viajeId == v && r[j].viajeId == v ==>
        (r[i].orden < r[j].orden <==> rows[Survivor(k, i)].orden < rows[Survivor(k, j)].orden)
  {
    var rest := Remove(rows, k);
    assert forall i :: 0 <= i < |rest| ==> rest[i] == rows[Survivor(k, i)];
    forall i | 0 <= i < |rest| && rest[i].viajeId == rows[k].viajeId ensures rest[i].orden != rows[k].orden {
      assert Survivor(k, i) != k;
    }
  }

  /** Every stop left in the trip after the delete sits in 1..N-1. */
  lemma DeleteBounds(rows: seq<Parada>, k: nat)
    requires k < |rows| && UniqueOrden(rows) && InPositions(rows, rows[k].viajeId, TripSize(rows, rows[k].viajeId))
    ensures InPositions(Delete(rows, k), rows[k].viajeId, TripSize(rows, rows[k].viajeId) - 1)
  {
    var r, v := Delete(rows, k), rows[k].viajeId;
    assert |r| == |rows| - 1;
    forall i | 0 <= i < |r| && r[i].viajeId == v ensures 1 <= r[i].orden <= TripSize(rows, v) - 1 {
      DeleteWithinOne(rows, k, i);
    }
  }

  /** Every stop of trip v sits in 1..n. */
  predicate InPositions(r: seq<Parada>, v: int, n: int)
  {
    forall i :: 0 <= i < |r| && r[i].viajeId == v ==> 1 <= r[i].orden <= n
  }

  /** A trip whose stops all sit in 1..n holds only positions of 1..n. */
  lemma OrdenSetBounded(r: seq<Parada>, v: int, n: int)
    requires InPositions(r, v, n)
    ensures OrdenSet(r, v) <= Positions(n)
  {
  }

  lemma DeleteWithinOne(rows: seq<Parada>, k: nat, i: nat)
    requires k < |rows| && i < |rows| - 1 && UniqueOrden(rows) && InPositions(rows, rows[k].viajeId, TripSize(rows, rows[k].viajeId))
    requires Delete(rows, k)[i].viajeId == rows[k].viajeId
    ensures 1 <= Delete(rows, k)[i].orden <= TripSize(rows, rows[k].viajeId) - 1
  {
    var v, o, m := rows[k].viajeId, rows[k].orden, Survivor(k, i);
    DeleteAt(rows, k, i);
    assert rows[m].viajeId == v && m != k;
    assert rows[m].orden != o;
  }

  /** Position x of 1..N-1 is held after the delete by the stop that held x (below the gap) or x + 1. */
  lemma DeleteFillsOne(rows: seq<Parada>, k: nat, y: int)
    requires k < |rows| && y in OrdenSet(rows, rows[k].viajeId) && y != rows[k].orden
    ensures (if y < rows[k].orden then y else y - 1) in OrdenSet(Delete(rows, k), rows[k].viajeId)
  {
    var r, v := Delete(rows, k), rows[k].viajeId;
    var m :| 0 <= m < |rows| && rows[m].viajeId == v && rows[m].orden == y;
    var i := if m < k then m else m - 1;
    assert Remove(rows, k)[i] == rows[m];
    assert r[i].viajeId == v;
  }

  /** Every position in 1..N-1 is held by some stop of the trip after the delete. */
  lemma DeleteFillsRange(rows: seq<Parada>, k: nat)
    requires k < |rows| && Held(rows, rows[k].viajeId, TripSize(rows, rows[k].viajeId))
    ensures Held(Delete(rows, k), rows[k].viajeId, TripSize(rows, rows[k].viajeId) - 1)
  {
    forall x | 1 <= x <= TripSize(rows, rows[k].viajeId) - 1 ensures x in OrdenSet(Delete(rows, k), rows[k].viajeId) {
      DeleteFillsAt(rows, k, x);
    }
  }

  lemma DeleteFillsAt(rows: seq<Parada>, k: nat, x: int)
    requires k < |rows| && Held(rows, rows[k].viajeId, TripSize(rows, rows[k].viajeId))
    requires 1 <= x <= TripSize(rows, rows[k].viajeId) - 1
    ensures x in OrdenSet(Delete(rows, k), rows[k].viajeId)
  {
    var v, o := rows[k].viajeId, rows[k].orden;
    var y := if x < o then x else x + 1;
    assert 1 <= y <= TripSize(rows, v) && y != o;
    assert y in OrdenSet(rows, v);
    DeleteFillsOne(rows, k, y);
  }

  /** Every position 1..n is held by some stop of trip v. */
  predicate Held(rows: seq<Parada>, v: int, n: int)
  {
    forall y :: 1 <= y <= n ==> y in OrdenSet(rows, v)
  }

  /** A trip at 1..N holds each of 1..N, and each of its stops sits in 1..N. */
  lemma ContiguousCovered(rows: seq<Parada>, v: int)
    requires Contiguous(rows, v)
    ensures Held(rows, v, TripSize(rows, v)) && InPositions(rows, v, TripSize(rows, v))
  {
    forall i | 0 <= i < |rows| && rows[i].viajeId == v ensures 1 <= rows[i].orden <= TripSize(rows, v) {
      assert rows[i].orden in OrdenSet(rows, v);
    }
  }

  /** A set within 1..n that holds each of 1..n is exactly the positions 1..n. */
  lemma PositionsExactly(n: int, s: set<int>)
    requires s <= Positions(n) && forall x :: 1 <= x <= n ==> x in s
    ensures s == Positions(n)
  {
  }

  /** A trip at 1..N before the delete is at 1..N-1 after it. */
  lemma DeleteContiguous(rows: seq<Parada>, k: nat)
    requires Consistent(rows) && k < |rows| && Contiguous(rows, rows[k].viajeId)
    ensures Contiguous(Delete(rows, k), rows[k].viajeId)
  {
    DeleteUnique(rows, k);
    DeleteTripSize(rows, k);
    ContiguousCovered(rows, rows[k].viajeId);
    DeleteBounds(rows, k);
    OrdenSetBounded(Delete(rows, k), rows[k].viajeId, TripSize(rows, rows[k].viajeId) - 1);
    DeleteFillsRange(rows, k);
    PositionsExactly(TripSize(rows, rows[k].viajeId) - 1, OrdenSet(Delete(rows, k), rows[k].viajeId));
  }

  /** The delete leaves the trip one stop shorter. */
  lemma DeleteTripSize(rows: seq<Parada>, k: nat)
    requires k < |rows|
    ensures TripSize(Delete(rows, k), rows[k].viajeId) == TripSize(rows, rows[k].viajeId) - 1
  {
    var v := rows[k].viajeId;
    RemoveTripSize(rows, k, v);
    SameTrips(Remove(rows, k), Delete(rows, k), v);
  }

  // ---------------------------------------------------------------------------
  // Lookup (get_or_404)
  // ---------------------------------------------------------------------------

  /** The row holding stop `id`, if any. */
  function FindById(rows: seq<Parada>, id: int): (r: Option<nat>)
    ensures r.Some? ==> r.value < |rows| && rows[r.value].id == id
    ensures r.None? ==> forall i :: 0 <= i < |rows| ==> rows[i].id != id
  {
    if |rows| == 0 then None
    else if rows[0].id == id then Some(0)
    else
      match FindById(rows[1..], id)
      case None => None
      case Some(i) => Some(i + 1)
  }

  // ---------------------------------------------------------------------------
  // Add (agregar_parada)
  // ---------------------------------------------------------------------------

  /** How a request on the stop table fails. */
  datatype Error =
    | NotFound          // get_or_404 found no such stop
    | DatosIncompletos  // the move request carries no nuevo_orden
    | NotAnInteger      // int(nuevo_orden) raised
    | UniqueViolation   // the database refused a duplicate (viaje_id, orden)
    | DatabaseError     // flush or commit failed for another reason

  /** The fields of a stop the client sends. */
  datatype NewStop = NewStop(destino: string, llegada: int, salida: int, notas: string)

  /** The position `agregar_parada` gives a new stop before the resort. */
  const Placeholder := 999

  /** The id the database assigns to a new row: one above the largest in use. */
  function NextId(rows: seq<Parada>): (r: int)
    ensures forall i :: 0 <= i < |rows| ==> rows[i].id < r
  {
    if |rows| == 0 then 1
    else
      var m := NextId(rows[..|rows| - 1]);
      assert forall i :: 0 <= i < |rows| - 1 ==> rows[..|rows| - 1][i] == rows[i];
      if rows[|rows| - 1].id >= m then rows[|rows| - 1].id + 1 else m
  }

  function NewRow(rows: seq<Parada>, v: int, s: NewStop, orden: int): Parada
  {
    Parada(NextId(rows), v, s.destino, orden, s.llegada, s.salida, s.notas)
  }

  /** Some stop of trip v already holds `value`. */
  predicate Taken(rows: seq<Parada>, v: int, value: int)
  {
    value in OrdenSet(rows, v)
  }

  /**
   * Insert the new stop at position `orden` and commit, then resort the trip.
   * The commit of the insert fails when the position is taken.
   */
  function AddWith(rows: seq<Parada>, v: int, s: NewStop, orden: int): Result<seq<Parada>, Error>
  {
    if Taken(rows, v, orden) then Err(UniqueViolation)
    else Ok(Resort(rows + [NewRow(rows, v, s, orden)], v))
  }

  /** `agregar_parada` as written: the placeholder is always 999. */
  function Add(rows: seq<Parada>, v: int, s: NewStop): Result<seq<Parada>, Error>
  {
    AddWith(rows, v, s, Placeholder)
  }

  lemma AppendTripSize(rows: seq<Parada>, p: Parada, w: int)
    ensures TripSize(rows + [p], w) == TripSize(rows, w) + (if p.viajeId == w then 1 else 0)
  {
    assert (rows + [p])[..|rows|] == rows;
  }

  /** Appending a stop at a free, non-negative position keeps the table consistent. */
  lemma AppendConsistent(rows: seq<Parada>, v: int, s: NewStop, orden: int)
    requires Consistent(rows) && !Taken(rows, v, orden) && orden >= 0
    ensures Consistent(rows + [NewRow(rows, v, s, orden)])
  {
    var r := rows + [NewRow(rows, v, s, orden)];
    assert forall i :: 0 <= i < |rows| ==> r[i] == rows[i];
  }

  /**
   * The first stop of an empty trip keeps the placeholder 999: the resort
   * skips a trip with a single stop.
   */
  lemma AddFirstStopKeepsPlaceholder(rows: seq<Parada>, v: int, s: NewStop)
    requires TripSize(rows, v) == 0
    ensures Add(rows, v, s) == Ok(rows + [NewRow(rows, v, s, 999)])
  {
    var p := NewRow(rows, v, s, 999);
    AppendTripSize(rows, p, v);
    var t := TripIndices(rows, v);
    assert forall i :: 0 <= i < |rows| ==> rows[i].viajeId != v;
  }

  /**
   * Adding two stops to an empty trip fails: the first is left at 999, so the
   * second insert at 999 breaks the unique constraint.
   */
  lemma AddTwiceCollides(rows: seq<Parada>, v: int, s1: NewStop, s2: NewStop)
    requires TripSize(rows, v) == 0
    ensures Add(rows, v, s1).Ok? && Add(Add(rows, v, s1).value, v, s2) == Err(UniqueViolation)
  {
    AddFirstStopKeepsPlaceholder(rows, v, s1);
    var r := rows + [NewRow(rows, v, s1, 999)];
    assert r[|rows|].viajeId == v && r[|rows|].orden == 999;
  }

  /**
   * When the trip already has a stop and 999 is free, the new stop is resorted
   * into the trip, which ends at 1..N.
   */
  lemma AddLandsInRange(rows: seq<Parada>, v: int, s: NewStop)
    requires Consistent(rows) && TripSize(rows, v) >= 1 && !Taken(rows, v, Placeholder)
    ensures Add(rows, v, s).Ok?
    ensures var r := Add(rows, v, s).value;
      && |r| == |rows| + 1 && Consistent(r) && Contiguous(r, v)
      && 1 <= r[|rows|].orden <= TripSize(rows, v) + 1
  {
    var p := NewRow(rows, v, s, Placeholder);
    var a := rows + [p];
    AppendTripSize(rows, p, v);
    AppendConsistent(rows, v, s, Placeholder);
    ResortFrame(a, v);
    ResortContiguous(a, v);
    var r := Resort(a, v);
    SameTrips(a, r, v);
    assert r[|rows|].viajeId == v;
    assert r[|rows|].orden in OrdenSet(r, v);
  }

  /** The largest position held in trip v, or 0 when it has no stop. */
  function MaxOrden(rows: seq<Parada>, v: int): (r: int)
    ensures r >= 0 && forall i :: 0 <= i < |rows| && rows[i].viajeId == v ==> rows[i].orden <= r
  {
    if |rows| == 0 then 0
    else
      var m := MaxOrden(rows[1..], v);
      if rows[0].viajeId == v && rows[0].orden > m then rows[0].orden else m
  }

  lemma {:induction false} MaxOrdenEmpty(rows: seq<Parada>, v: int)
    requires forall i :: 0 <= i < |rows| ==> rows[i].viajeId != v
    ensures MaxOrden(rows, v) == 0
  {
    if |rows| > 0 {
      MaxOrdenEmpty(rows[1..], v);
    }
  }

  /** `agregar_parada` corrected: the new stop starts one past the trip's last position. */
  function AddFixed(rows: seq<Parada>, v: int, s: NewStop): Result<seq<Parada>, Error>
  {
    AddWith(rows, v, s, MaxOrden(rows, v) + 1)
  }

  lemma AddFixedUnfold(rows: seq<Parada>, v: int, s: NewStop, o: int)
    requires o == MaxOrden(rows, v) + 1 && !Taken(rows, v, o)
    ensures AddFixed(rows, v, s).Ok? && AddFixed(rows, v, s).value == Resort(rows + [NewRow(rows, v, s, o)], v)
  {
  }

  /** A stop at position 1 appended to a trip with no stops leaves the trip at 1..1. */
  lemma FirstStopContiguous(rows: seq<Parada>, p: Parada)
    requires TripSize(rows, p.viajeId) == 0 && p.orden == 1
    ensures Contiguous(rows + [p], p.viajeId)
  {
    var v, a := p.viajeId, rows + [p];
    AppendTripSize(rows, p, v);
    FirstStopAlone(rows, p);
    OrdenSetBounded(a, v, 1);
    assert a[|rows|].orden in OrdenSet(a, v);
    PositionsExactly(1, OrdenSet(a, v));
  }

  lemma FirstStopAlone(rows: seq<Parada>, p: Parada)
    requires TripSize(rows, p.viajeId) == 0
    ensures forall i :: 0 <= i < |rows| + 1 && (rows + [p])[i].viajeId == p.viajeId ==> i == |rows|
  {
    var t := TripIndices(rows, p.viajeId);
    forall i | 0 <= i < |rows| ensures (rows + [p])[i].viajeId != p.viajeId {
      assert (rows + [p])[i] == rows[i];
      assert i !in t;
    }
  }

  /**
   * The corrected add never collides, keeps the table consistent and leaves the
   * trip at 1..N whatever its size, including the first stop.
   */
  lemma AddFixedFacts(rows: seq<Parada>, v: int, s: NewStop)
    requires Consistent(rows)
    ensures AddFixed(rows, v, s).Ok?
    ensures var r := AddFixed(rows, v, s).value;
      && |r| == |rows| + 1 && Consistent(r) && Contiguous(r, v)
      && r[|rows|] == NewRow(rows, v, s, r[|rows|].orden)
  {
    var o := MaxOrden(rows, v) + 1;
    var p := NewRow(rows, v, s, o);
    var a := rows + [p];
    assert !Taken(rows, v, o);
    AddFixedUnfold(rows, v, s, o);
    AppendTripSize(rows, p, v);
    AppendConsistent(rows, v, s, o);
    ResortFrame(a, v);
    if TripSize(rows, v) == 0 {
      var t := TripIndices(rows, v);
      MaxOrdenEmpty(rows, v);
      FirstStopContiguous(rows, p);
      assert Resort(a, v) == a;
    } else {
      ResortContiguous(a, v);
    }
  }

  // ---------------------------------------------------------------------------
  // Resort of every trip (reordenar_todos_viajes)
  // ---------------------------------------------------------------------------

  /** The resort applied to each trip of `viajes` in turn. */
  function ResortAll(rows: seq<Parada>, viajes: seq<int>): seq<Parada>
  {
    if viajes == [] then rows
    else Resort(ResortAll(rows, viajes[..|viajes| - 1]), viajes[|viajes| - 1])
  }

  /** How many of `viajes` have more than one stop. */
  function CountResorted(rows: seq<Parada>, viajes: seq<int>): nat
  {
    if viajes == [] then 0
    else CountResorted(rows, viajes[..|viajes| - 1]) + (if TripSize(rows, viajes[|viajes| - 1]) > 1 then 1 else 0)
  }

  /** Contiguity of trip w depends only on w's rows. */
  lemma ContiguousFrame(a: seq<Parada>, b: seq<Parada>, w: int)
    requires |a| == |b| && (forall k :: 0 <= k < |a| ==> a[k].viajeId == b[k].viajeId)
    requires forall k :: 0 <= k < |a| && a[k].viajeId == w ==> a[k].orden == b[k].orden
    requires Contiguous(a, w)
    ensures Contiguous(b, w)
  {
    SameTrips(a, b, w);
    assert OrdenSet(a, w) == OrdenSet(b, w) by {
      forall x | x in OrdenSet(b, w) ensures x in OrdenSet(a, w) {
        var k :| 0 <= k < |b| && b[k].viajeId == w && b[k].orden == x;
        assert a[k].orden == x;
      }
    }
  }

  /**
   * After resorting every trip in `viajes`, each of them with two or more stops
   * is at 1..N, trips not listed are untouched, and the table stays consistent.
   */
  lemma {:induction false} ResortAllFacts(rows: seq<Parada>, viajes: seq<int>)
    requires Consistent(rows)
    ensures var r := ResortAll(rows, viajes);
      && Consistent(r) && |r| == |rows|
      && (forall k :: 0 <= k < |rows| ==> r[k] == rows[k].(orden := r[k].orden))
      && (forall w :: w in viajes && TripSize(rows, w) >= 2 ==> Contiguous(r, w))
      && (forall k :: 0 <= k < |rows| && rows[k].viajeId !in viajes ==> r[k] == rows[k])
  {
    if viajes != [] {
      var n := |viajes| - 1;
      var v := viajes[n];
      var prev := ResortAll(rows, viajes[..n]);
      ResortAllFacts(rows, viajes[..n]);
      ResortFrame(prev, v);
      ResortOthers(prev, v);
      if TripSize(prev, v) >= 2 {
        ResortContiguous(prev, v);
      }
      var r := Resort(prev, v);
      SameTrips(rows, prev, v);
      forall w | w in viajes && TripSize(rows, w) >= 2 ensures Contiguous(r, w) {
        if w != v {
          assert w in viajes[..n];
          ContiguousFrame(prev, r, w);
        }
      }
      forall k | 0 <= k < |rows| && rows[k].viajeId !in viajes ensures r[k] == rows[k] {
        assert rows[k].viajeId !in viajes[..n];
      }
    }
  }

  /**
   * One more pass of the admin loop: the fold and the count over
   * `viajes[..i + 1]` extend those over `viajes[..i]`, and the trip about to be
   * resorted still has the size it had before the loop.
   */
  lemma ResortAllStep(rows: seq<Parada>, viajes: seq<int>, i: nat)
    requires Consistent(rows) && i < |viajes|
    ensures var prev := ResortAll(rows, viajes[..i]);
      && Consistent(prev)
      && TripSize(prev, viajes[i]) == TripSize(rows, viajes[i])
      && ResortAll(rows, viajes[..i + 1]) == Resort(prev, viajes[i])
      && CountResorted(rows, viajes[..i + 1])
         == CountResorted(rows, viajes[..i]) + (if TripSize(rows, viajes[i]) > 1 then 1 else 0)
  {
    assert viajes[..i + 1][..i] == viajes[..i];
    ResortAllFacts(rows, viajes[..i]);
    SameTrips(rows, ResortAll(rows, viajes[..i]), viajes[i]);
  }
}
