/**
 * The stop (`Parada`) rows of the trip planner and the two orders the
 * sequencing code sorts them by: the date key of the automatic resort and the
 * current `orden` used by a manual move. Sorting works on row indices, the way
 * the source sorts references to the same row objects.
 */
module Stops {
  import Text

  /** One stop row. Dates are day numbers; `orden` is the position within the trip. */
  datatype Parada = Parada(
    id: int,
    viajeId: int,
    destino: string,
    orden: int,
    llegada: int,
    salida: int,
    notas: string)

  /**
   * The resort key `(fecha_llegada, fecha_salida, destino.lower(), id)` compared
   * as a Python tuple: strictly smaller.
   */
  predicate DateBefore(p: Parada, q: Parada)
  {
    var a, b := Text.Lower(p.destino), Text.Lower(q.destino);
    || p.llegada < q.llegada
    || (p.llegada == q.llegada && p.salida < q.salida)
    || (p.llegada == q.llegada && p.salida == q.salida && Text.Less(a, b))
    || (p.llegada == q.llegada && p.salida == q.salida && a == b && p.id < q.id)
  }

  /** The two sort orders: the resort's date key, and `order_by(Parada.orden)`. */
  datatype Criterion = ByDate | ByOrden

  predicate Before(c: Criterion, p: Parada, q: Parada)
  {
    match c
    case ByDate => DateBefore(p, q)
    case ByOrden => p.orden < q.orden
  }

  lemma BeforeIrreflexive(c: Criterion, p: Parada)
    ensures !Before(c, p, p)
  {
    Text.LessIrreflexive(Text.Lower(p.destino));
  }

  lemma BeforeTransitive(c: Criterion, p: Parada, q: Parada, r: Parada)
    requires Before(c, p, q) && Before(c, q, r)
    ensures Before(c, p, r)
  {
    var a, b, d := Text.Lower(p.destino), Text.Lower(q.destino), Text.Lower(r.destino);
    if c == ByDate && Text.Less(a, b) && Text.Less(b, d) {
      Text.LessTransitive(a, b, d);
    }
  }

  /** Two stops with different ids are always ordered by the date key: the key is a total order. */
  lemma DateBeforeTotal(p: Parada, q: Parada)
    requires p.id != q.id
    ensures DateBefore(p, q) || DateBefore(q, p)
  {
    var a, b := Text.Lower(p.destino), Text.Lower(q.destino);
    if a != b {
      Text.LessTotal(a, b);
    }
  }

  /** Every index of `s` addresses a row. */
  predicate InRange(rows: seq<Parada>, s: seq<nat>)
  {
    forall i :: 0 <= i < |s| ==> s[i] < |rows|
  }

  predicate Distinct(s: seq<nat>)
  {
    forall i, j :: 0 <= i < |s| && 0 <= j < |s| && i != j ==> s[i] != s[j]
  }

  /** The rows addressed by `s` are in strictly ascending order under `c`. */
  predicate Sorted(rows: seq<Parada>, c: Criterion, s: seq<nat>)
    requires InRange(rows, s)
  {
    forall i, j :: 0 <= i < j < |s| ==> Before(c, rows[s[i]], rows[s[j]])
  }

  /** Any two different rows addressed by `s` are ordered one way or the other under `c`. */
  predicate Comparable(rows: seq<Parada>, c: Criterion, s: seq<nat>)
    requires InRange(rows, s)
  {
    forall i, j :: 0 <= i < |s| && 0 <= j < |s| && s[i] != s[j] ==>
      Before(c, rows[s[i]], rows[s[j]]) || Before(c, rows[s[j]], rows[s[i]])
  }

  /** Inserts index `k` before the first element of `s` that it precedes. */
  function Insert(rows: seq<Parada>, c: Criterion, k: nat, s: seq<nat>): (r: seq<nat>)
    requires k < |rows| && InRange(rows, s)
    ensures multiset(r) == multiset(s) + multiset{k}
    ensures |r| == |s| + 1 && InRange(rows, r)
  {
    if s == [] then [k]
    else if Before(c, rows[k], rows[s[0]]) then [k] + s
    else
      assert s == [s[0]] + s[1..];
      [s[0]] + Insert(rows, c, k, s[1..])
  }

  /** Python's `sorted` on the rows addressed by `s` (insertion sort). */
  function Sort(rows: seq<Parada>, c: Criterion, s: seq<nat>): (r: seq<nat>)
    requires InRange(rows, s)
    ensures multiset(r) == multiset(s)
    ensures |r| == |s| && InRange(rows, r)
  {
    if s == [] then []
    else
      assert s == [s[0]] + s[1..];
      var t := Sort(rows, c, s[1..]);
      assert multiset(s) == multiset(s[1..]) + multiset{s[0]};
      Insert(rows, c, s[0], t)
  }

  lemma {:induction false} InsertSorted(rows: seq<Parada>, c: Criterion, k: nat, s: seq<nat>)
    requires k < |rows| && InRange(rows, s) && Sorted(rows, c, s)
    requires forall i :: 0 <= i < |s| ==> Before(c, rows[k], rows[s[i]]) || Before(c, rows[s[i]], rows[k])
    ensures Sorted(rows, c, Insert(rows, c, k, s))
  {
    if s == [] {
    } else if Before(c, rows[k], rows[s[0]]) {
      forall i | 0 < i < |s|
        ensures Before(c, rows[k], rows[s[i]])
      {
        BeforeTransitive(c, rows[k], rows[s[0]], rows[s[i]]);
      }
    } else {
      var u := s[1..];
      assert forall i :: 0 <= i < |u| ==> u[i] == s[i + 1];
      InsertSorted(rows, c, k, u);
      InsertAbove(rows, c, k, u, s[0]);
    }
  }

  /** A row that precedes the inserted row and every row of `s` precedes every row of the result. */
  lemma {:induction false} InsertAbove(rows: seq<Parada>, c: Criterion, k: nat, s: seq<nat>, x: nat)
    requires k < |rows| && InRange(rows, s) && x < |rows|
    requires Before(c, rows[x], rows[k])
    requires forall i :: 0 <= i < |s| ==> Before(c, rows[x], rows[s[i]])
    ensures forall j :: 0 <= j < |Insert(rows, c, k, s)| ==> Before(c, rows[x], rows[Insert(rows, c, k, s)[j]])
  {
    if s != [] && !Before(c, rows[k], rows[s[0]]) {
      var u := s[1..];
      assert forall i :: 0 <= i < |u| ==> u[i] == s[i + 1];
      InsertAbove(rows, c, k, u, x);
    }
  }

  /** Sorting indices of pairwise comparable rows yields a strictly ascending sequence. */
  lemma {:induction false} SortSorted(rows: seq<Parada>, c: Criterion, s: seq<nat>)
    requires InRange(rows, s) && Comparable(rows, c, s) && Distinct(s)
    ensures Sorted(rows, c, Sort(rows, c, s))
  {
    if s != [] {
      assert Comparable(rows, c, s[1..]) by {
        forall i, j | 0 <= i < |s[1..]| && 0 <= j < |s[1..]| && s[1..][i] != s[1..][j]
          ensures Before(c, rows[s[1..][i]], rows[s[1..][j]]) || Before(c, rows[s[1..][j]], rows[s[1..][i]])
        {
          assert s[1..][i] == s[i + 1] && s[1..][j] == s[j + 1];
        }
      }
      assert Distinct(s[1..]) by {
        forall i, j | 0 <= i < |s[1..]| && 0 <= j < |s[1..]| && i != j
          ensures s[1..][i] != s[1..][j]
        {
          assert s[1..][i] == s[i + 1] && s[1..][j] == s[j + 1];
        }
      }
      SortSorted(rows, c, s[1..]);
      var t := Sort(rows, c, s[1..]);
      forall i | 0 <= i < |t|
        ensures Before(c, rows[s[0]], rows[t[i]]) || Before(c, rows[t[i]], rows[s[0]])
      {
        assert t[i] in multiset(s[1..]);
        var m :| 0 <= m < |s[1..]| && s[1..][m] == t[i];
        assert s[m + 1] == t[i];
      }
      InsertSorted(rows, c, s[0], t);
    }
  }

  /** The first element of a strictly sorted sequence precedes every other element. */
  lemma SortedHeadsAgree(rows: seq<Parada>, c: Criterion, a: seq<nat>, b: seq<nat>)
    requires InRange(rows, a) && InRange(rows, b) && |a| > 0 && |b| > 0
    requires Sorted(rows, c, a) && Sorted(rows, c, b)
    requires multiset(a) == multiset(b)
    ensures a[0] == b[0]
  {
    if a[0] != b[0] {
      assert a[0] in multiset(b);
      var j :| 0 <= j < |b| && b[j] == a[0];
      assert b[0] in multiset(a);
      var i :| 0 <= i < |a| && a[i] == b[0];
      BeforeTransitive(c, rows[a[0]], rows[b[0]], rows[a[0]]);
      BeforeIrreflexive(c, rows[a[0]]);
    }
  }

  lemma SortedTail(rows: seq<Parada>, c: Criterion, a: seq<nat>)
    requires InRange(rows, a) && |a| > 0 && Sorted(rows, c, a)
    ensures InRange(rows, a[1..]) && Sorted(rows, c, a[1..])
  {
    forall i, j | 0 <= i < j < |a[1..]| ensures Before(c, rows[a[1..][i]], rows[a[1..][j]]) {
      assert a[1..][i] == a[i + 1] && a[1..][j] == a[j + 1];
    }
  }

  /** A strictly sorted arrangement of a set of rows is unique: the sort order is deterministic. */
  lemma {:induction false} SortedUnique(rows: seq<Parada>, c: Criterion, a: seq<nat>, b: seq<nat>)
    requires InRange(rows, a) && InRange(rows, b)
    requires Sorted(rows, c, a) && Sorted(rows, c, b)
    requires multiset(a) == multiset(b)
    ensures a == b
  {
    if a != [] {
      assert |a| == |multiset(a)| == |multiset(b)| == |b|;
      SortedHeadsAgree(rows, c, a, b);
      var a', b' := a[1..], b[1..];
      assert a == [a[0]] + a' && b == [b[0]] + b';
      assert multiset(a') == multiset(a) - multiset{a[0]};
      assert multiset(b') == multiset(b) - multiset{b[0]};
      SortedTail(rows, c, a);
      SortedTail(rows, c, b);
      SortedUnique(rows, c, a', b');
    }
  }

  /** The number of stops of trip v: `len(paradas)` in the source. */
  function TripSize(rows: seq<Parada>, v: int): nat
  {
    if |rows| == 0 then 0
    else TripSize(rows[..|rows| - 1], v) + (if rows[|rows| - 1].viajeId == v then 1 else 0)
  }

  /**
   * `Parada.query.filter_by(viaje_id=v).all()`: the indices of trip v's rows, in
   * table order.
   */
  function TripIndices(rows: seq<Parada>, v: int): (r: seq<nat>)
    ensures InRange(rows, r) && |r| == TripSize(rows, v)
    ensures forall k: int :: k in r <==> 0 <= k < |rows| && rows[k].viajeId == v
    ensures forall i, j :: 0 <= i < j < |r| ==> r[i] < r[j]
  {
    if |rows| == 0 then []
    else
      var n := |rows| - 1;
      var prefix := TripIndices(rows[..n], v);
      assert forall k: int :: k in prefix ==> rows[..n][k] == rows[k];
      prefix + (if rows[n].viajeId == v then [n] else [])
  }

  lemma TripIndicesDistinct(rows: seq<Parada>, v: int)
    ensures Distinct(TripIndices(rows, v))
  {
    var r := TripIndices(rows, v);
    forall i, j | 0 <= i < |r| && 0 <= j < |r| && i != j
      ensures r[i] != r[j]
    {
      if i < j { assert r[i] < r[j]; } else { assert r[j] < r[i]; }
    }
  }

  /** Every stop id occurs once in the table (primary key). */
  predicate UniqueIds(rows: seq<Parada>)
  {
    forall i, j :: 0 <= i < |rows| && 0 <= j < |rows| && i != j ==> rows[i].id != rows[j].id
  }

  /** The unique constraint `_viaje_orden_uc` on `(viaje_id, orden)`. */
  predicate UniqueOrden(rows: seq<Parada>)
  {
    forall i, j :: 0 <= i < |rows| && 0 <= j < |rows| && i != j && rows[i].viajeId == rows[j].viajeId ==>
      rows[i].orden != rows[j].orden
  }

  predicate NonNegative(rows: seq<Parada>)
  {
    forall i :: 0 <= i < |rows| ==> rows[i].orden >= 0
  }

  /**
   * What holds of the table between requests: keys and the unique constraint,
   * and no stop left with a negative (staging) position.
   */
  predicate Consistent(rows: seq<Parada>)
  {
    UniqueIds(rows) && UniqueOrden(rows) && NonNegative(rows)
  }

  /** The positions held by the stops of trip v. */
  function OrdenSet(rows: seq<Parada>, v: int): set<int>
  {
    set k | 0 <= k < |rows| && rows[k].viajeId == v :: rows[k].orden
  }

  /** The positions 1..n. */
  function Positions(n: int): (r: set<int>)
    ensures forall i :: i in r <==> 1 <= i <= n
    decreases n
  {
    if n <= 0 then {} else Positions(n - 1) + {n}
  }

  /** Trip v's positions are pairwise distinct and are exactly 1..N, N the number of its stops. */
  predicate Contiguous(rows: seq<Parada>, v: int)
  {
    && (forall i, j :: 0 <= i < |rows| && 0 <= j < |rows| && i != j && rows[i].viajeId == v && rows[j].viajeId == v ==>
          rows[i].orden != rows[j].orden)
    && OrdenSet(rows, v) == Positions(TripSize(rows, v))
  }

  /** Two tables whose rows belong to the same trips have the same trip lists. */
  lemma {:induction false} SameTrips(a: seq<Parada>, b: seq<Parada>, v: int)
    requires |a| == |b| && forall k :: 0 <= k < |a| ==> a[k].viajeId == b[k].viajeId
    ensures TripIndices(a, v) == TripIndices(b, v) && TripSize(a, v) == TripSize(b, v)
  {
    if |a| > 0 {
      SameTrips(a[..|a| - 1], b[..|b| - 1], v);
    }
  }

  /** A strictly sorted index sequence has no repetitions. */
  lemma SortedDistinct(rows: seq<Parada>, c: Criterion, s: seq<nat>)
    requires InRange(rows, s) && Sorted(rows, c, s)
    ensures Distinct(s)
  {
    forall i, j | 0 <= i < |s| && 0 <= j < |s| && i != j ensures s[i] != s[j] {
      BeforeIrreflexive(c, rows[s[i]]);
    }
  }

  /** Within a consistent table the rows of one trip are totally ordered by either criterion. */
  lemma TripComparable(rows: seq<Parada>, c: Criterion, v: int)
    requires Consistent(rows)
    ensures Comparable(rows, c, TripIndices(rows, v))
  {
    var t := TripIndices(rows, v);
    forall i, j | 0 <= i < |t| && 0 <= j < |t| && t[i] != t[j]
      ensures Before(c, rows[t[i]], rows[t[j]]) || Before(c, rows[t[j]], rows[t[i]])
    {
      if c == ByDate {
        DateBeforeTotal(rows[t[i]], rows[t[j]]);
      }
    }
  }
}
