/** The derived view of the browser client (src/main.ts:157-183): the
    search filter, the sort by the selected column, and the KPI totals. */
module View {
  import opened Items
  import opened JsText

  // Filtering (src/main.ts:158-165).

  /** The search test: the query occurs in the lower-cased name or in the
      lower-cased category, an absent category counting as "". */
  predicate Matches(x: Item, q: string) {
    Includes(Lower(x.nombre), q) || Includes(Lower(x.categoria.GetOr("")), q)
  }

  /** `arr.filter(x => Matches(x, q))` */
  function Filter(s: seq<Item>, q: string): (r: seq<Item>)
    ensures |r| <= |s|
  {
    if s == [] then []
    else if Matches(s[0], q) then [s[0]] + Filter(s[1..], q)
    else Filter(s[1..], q)
  }

  /** The filter keeps the matching items, in their order, and only them. */
  lemma {:induction false} FilterCorrect(s: seq<Item>, q: string)
    ensures IsSubseq(Filter(s, q), s)
    ensures forall x :: x in Filter(s, q) ==> x in s && Matches(x, q)
    ensures forall x :: x in s && Matches(x, q) ==> x in Filter(s, q)
    decreases |s|
  {
    if s != [] {
      FilterCorrect(s[1..], q);
      var r := Filter(s, q);
      if Matches(s[0], q) {
        assert r[1..] == Filter(s[1..], q);
      }
      forall x | x in s && Matches(x, q)
        ensures x in r
      {
        if x != s[0] {
          assert x in s[1..];
        }
      }
      forall x | x in r
        ensures x in s && Matches(x, q)
      {
        if !(Matches(s[0], q) && x == s[0]) {
          assert x in Filter(s[1..], q);
        }
      }
    }
  }

  /** Filtering one item more adds it at the end exactly when it matches,
      so every copy of a matching item is kept. */
  lemma {:induction false} FilterAppend(s: seq<Item>, x: Item, q: string)
    ensures Filter(s + [x], q) == Filter(s, q) + (if Matches(x, q) then [x] else [])
    decreases |s|
  {
    if s == [] {
      assert [] + [x] == [x];
    } else {
      assert (s + [x])[0] == s[0] && (s + [x])[1..] == s[1..] + [x];
      FilterAppend(s[1..], x, q);
    }
  }

  /** With the empty query every item matches, so the filter keeps them all. */
  lemma {:induction false} FilterEmptyQuery(s: seq<Item>)
    ensures Filter(s, "") == s
    decreases |s|
  {
    if s != [] {
      IncludesEmpty(Lower(s[0].nombre));
      FilterEmptyQuery(s[1..]);
    }
  }

  // Sorting (src/main.ts:166-173).

  /** The options of the sort selector; any other value sorts by nothing. */
  datatype SortKey = ById | ByNombre | ByCantidad | ByPrecio | ByNothing

  function KeyOf(k: string): SortKey {
    if k == "id" then ById
    else if k == "nombre" then ByNombre
    else if k == "cantidad" then ByCantidad
    else if k == "precio" then ByPrecio
    else ByNothing
  }

  /** The comparator returns a positive number: `a` belongs after `b`. */
  predicate After(k: SortKey, a: Item, b: Item) {
    match k
    case ById => a.id > b.id
    case ByNombre => LexLess(b.nombre, a.nombre)
    case ByCantidad => a.cantidad > b.cantidad
    case ByPrecio => PrecioOrZero(a) > PrecioOrZero(b)
    case ByNothing => false
  }

  predicate Sorted(s: seq<Item>, k: SortKey) {
    forall i, j :: 0 <= i < j < |s| ==> !After(k, s[i], s[j])
  }

  lemma AfterAsymmetric(k: SortKey, a: Item, b: Item)
    requires After(k, a, b)
    ensures !After(k, b, a)
  {
    if k == ByNombre {
      LexLessAsymmetric(b.nombre, a.nombre);
    }
  }

  /** "Not after" is transitive: the comparator is consistent. */
  lemma NotAfterTransitive(k: SortKey, a: Item, b: Item, c: Item)
    requires !After(k, a, b) && !After(k, b, c)
    ensures !After(k, a, c)
  {
    if k == ByNombre && LexLess(c.nombre, a.nombre) {
      LexLessTotal(a.nombre, b.nombre);
      LexLessTotal(b.nombre, c.nombre);
      if LexLess(a.nombre, b.nombre) && LexLess(b.nombre, c.nombre) {
        LexLessTransitive(a.nombre, b.nombre, c.nombre);
        LexLessAsymmetric(a.nombre, c.nombre);
      } else if LexLess(a.nombre, b.nombre) {
        LexLessAsymmetric(a.nombre, c.nombre);
      } else {
        LexLessAsymmetric(c.nombre, a.nombre);
      }
    }
  }

  /** Inserting `x` after every element not after it, scanning from the
      right: the step of a stable insertion sort. */
  function Insert(t: seq<Item>, x: Item, k: SortKey): (r: seq<Item>)
    ensures |r| == |t| + 1
  {
    if t == [] || !After(k, t[|t| - 1], x) then t + [x]
    else
      Insert(t[..|t| - 1], x, k) + [t[|t| - 1]]
  }

  /** The stable sort `Array.prototype.sort` performs with this comparator,
      written as insertion sort. */
  function SortBy(s: seq<Item>, k: SortKey): (r: seq<Item>)
    ensures |r| == |s|
  {
    if s == [] then []
    else
      Insert(SortBy(s[..|s| - 1], k), s[|s| - 1], k)
  }

  lemma {:induction false} InsertPermutes(t: seq<Item>, x: Item, k: SortKey)
    ensures multiset(Insert(t, x, k)) == multiset(t) + multiset{x}
    decreases |t|
  {
    if t != [] && After(k, t[|t| - 1], x) {
      var t' := t[..|t| - 1];
      InsertPermutes(t', x, k);
      assert t == t' + [t[|t| - 1]];
    }
  }

  /** The sort only reorders: it returns a permutation of its input. */
  lemma {:induction false} SortByPermutes(s: seq<Item>, k: SortKey)
    ensures multiset(SortBy(s, k)) == multiset(s)
    decreases |s|
  {
    if s != [] {
      var s' := s[..|s| - 1];
      SortByPermutes(s', k);
      InsertPermutes(SortBy(s', k), s[|s| - 1], k);
      assert s == s' + [s[|s| - 1]];
    }
  }

  lemma {:induction false} InsertSorted(t: seq<Item>, x: Item, k: SortKey)
    requires Sorted(t, k)
    ensures Sorted(Insert(t, x, k), k)
    decreases |t|
  {
    var r := Insert(t, x, k);
    if t == [] || !After(k, t[|t| - 1], x) {
      forall i, j | 0 <= i < j < |r|
        ensures !After(k, r[i], r[j])
      {
        if j == |t| && i < |t| - 1 {
          NotAfterTransitive(k, t[i], t[|t| - 1], x);
        }
      }
    } else {
      var t' := t[..|t| - 1];
      var last := t[|t| - 1];
      assert Sorted(t', k);
      InsertSorted(t', x, k);
      InsertElements(t', x, k);
      AfterAsymmetric(k, last, x);
      forall y | y in t'
        ensures !After(k, y, last)
      {
        var m :| 0 <= m < |t'| && t'[m] == y;
        assert t[m] == y;
      }
      SortedAppend(Insert(t', x, k), last, k);
    }
  }

  /** What `Insert` returns holds `x` and the elements of `t`, nothing else. */
  lemma {:induction false} InsertElements(t: seq<Item>, x: Item, k: SortKey)
    ensures forall y :: y in Insert(t, x, k) ==> y == x || y in t
    decreases |t|
  {
    if t != [] && After(k, t[|t| - 1], x) {
      var t' := t[..|t| - 1];
      InsertElements(t', x, k);
      forall y | y in Insert(t, x, k)
        ensures y == x || y in t
      {
        if y in t' {
          var m :| 0 <= m < |t'| && t'[m] == y;
          assert t[m] == y;
        }
      }
    }
  }

  /** A sorted list stays sorted when an element no element is after comes
      last. */
  lemma SortedAppend(r: seq<Item>, last: Item, k: SortKey)
    requires Sorted(r, k)
    requires forall y :: y in r ==> !After(k, y, last)
    ensures Sorted(r + [last], k)
  {
    var u := r + [last];
    forall i, j | 0 <= i < j < |u|
      ensures !After(k, u[i], u[j])
    {
      if j == |r| {
        assert u[i] == r[i] && r[i] in r;
      } else {
        assert u[i] == r[i] && u[j] == r[j];
      }
    }
  }

  /** The sort yields an ascending order for its key: ids ascending for
      "id", names in order for "nombre", quantities ascending for
      "cantidad", prices ascending (absent as 0) for "precio". */
  lemma {:induction false} SortBySorted(s: seq<Item>, k: SortKey)
    ensures Sorted(SortBy(s, k), k)
    decreases |s|
  {
    if s != [] {
      SortBySorted(s[..|s| - 1], k);
      InsertSorted(SortBy(s[..|s| - 1], k), s[|s| - 1], k);
    }
  }

  /** The sort leaves an already ordered list as it is (it is stable). */
  lemma {:induction false} SortByOfSorted(s: seq<Item>, k: SortKey)
    requires Sorted(s, k)
    ensures SortBy(s, k) == s
    decreases |s|
  {
    if s != [] {
      var p := s[..|s| - 1];
      assert Sorted(p, k);
      SortByOfSorted(p, k);
      if |p| > 0 {
        assert !After(k, p[|p| - 1], s[|s| - 1]);
      }
      assert p + [s[|s| - 1]] == s;
    }
  }

  /** An unknown sort key (the comparator always returns 0) keeps the order. */
  lemma SortByNothing(s: seq<Item>)
    ensures SortBy(s, ByNothing) == s
  {
    SortByOfSorted(s, ByNothing);
  }

  /** The comparator returns 0 for `a` and `b`: neither comes after the other. */
  predicate Tied(k: SortKey, a: Item, b: Item) {
    !After(k, a, b) && !After(k, b, a)
  }

  /** The items of `s` that tie with `y`, in their order in `s`. */
  function Ties(s: seq<Item>, y: Item, k: SortKey): (r: seq<Item>)
    ensures |r| <= |s|
  {
    if s == [] then []
    else Ties(s[..|s| - 1], y, k) + (if Tied(k, s[|s| - 1], y) then [s[|s| - 1]] else [])
  }

  /** Two items that tie with a third are never one after the other. */
  lemma TiedTogether(k: SortKey, a: Item, b: Item, y: Item)
    requires Tied(k, a, y) && Tied(k, b, y)
    ensures !After(k, a, b)
  {
    if k == ByNombre {
      LexLessTotal(a.nombre, y.nombre);
      LexLessTotal(b.nombre, y.nombre);
      LexLessIrreflexive(a.nombre);
    }
  }

  lemma TiesAppendOne(s: seq<Item>, x: Item, y: Item, k: SortKey)
    ensures Ties(s + [x], y, k) == Ties(s, y, k) + (if Tied(k, x, y) then [x] else [])
  {
    assert (s + [x])[..|s|] == s;
  }

  /** An insertion step puts `x` behind every item that ties with it, so
      the ties of any `y` keep their order, `x` last. */
  lemma {:induction false} InsertTies(t: seq<Item>, x: Item, y: Item, k: SortKey)
    ensures Ties(Insert(t, x, k), y, k) == Ties(t, y, k) + (if Tied(k, x, y) then [x] else [])
    decreases |t|
  {
    if t == [] || !After(k, t[|t| - 1], x) {
      TiesAppendOne(t, x, y, k);
    } else {
      var t', last := t[..|t| - 1], t[|t| - 1];
      InsertTies(t', x, y, k);
      TiesAppendOne(Insert(t', x, k), last, y, k);
      if Tied(k, x, y) && Tied(k, last, y) {
        TiedTogether(k, last, x, y);
      }
    }
  }

  /** The sort is stable: the items that tie with any `y` come out in the
      order they went in. */
  lemma {:induction false} SortByStable(s: seq<Item>, y: Item, k: SortKey)
    ensures Ties(SortBy(s, k), y, k) == Ties(s, y, k)
    decreases |s|
  {
    if s != [] {
      var s' := s[..|s| - 1];
      SortByStable(s', y, k);
      InsertTies(SortBy(s', k), s[|s| - 1], y, k);
    }
  }

  /** Where the scan from the right stops: every element from `j` on belongs
      after `x` and the one before `j` (if any) does not, so `Insert` puts
      `x` at index `j`. */
  lemma {:induction false} InsertStops(t: seq<Item>, x: Item, k: SortKey, j: nat)
    requires j <= |t|
    requires forall m :: j <= m < |t| ==> After(k, t[m], x)
    requires j == 0 || !After(k, t[j - 1], x)
    ensures Insert(t, x, k) == t[..j] + [x] + t[j..]
    decreases |t|
  {
    if j == |t| {
      assert t[..j] == t && t[j..] == [];
    } else {
      var p, last := t[..|t| - 1], t[|t| - 1];
      assert After(k, last, x);
      assert Insert(t, x, k) == Insert(p, x, k) + [last];
      assert forall m :: j <= m < |p| ==> p[m] == t[m];
      InsertStops(p, x, k, j);
      SplitLast(t, j, x);
    }
  }

  /** Putting `x` at `j` in `t`, or in `t` without its last element and then
      appending that element, gives the same sequence. */
  lemma SplitLast<T>(t: seq<T>, j: nat, x: T)
    requires j < |t|
    ensures t[..j] + [x] + t[j..] ==
            t[..|t| - 1][..j] + [x] + t[..|t| - 1][j..] + [t[|t| - 1]]
  {
    var p := t[..|t| - 1];
    assert p[..j] == t[..j];
    assert p[j..] + [t[|t| - 1]] == t[j..];
  }

  /** One insertion step: the item at `i` moves left past every item of
      the sorted prefix that belongs after it. */
  method InsertInPlace(a: array<Item>, i: nat, k: SortKey)
    requires i < a.Length
    modifies a
    ensures a[..i + 1] == Insert(old(a[..i]), old(a[i]), k)
    ensures a[i + 1..] == old(a[i + 1..])
  {
    var x := a[i];
    ghost var t := a[..i];
    ghost var rest := a[i + 1..];
    var j := OpenHole(a, i, x, k);
    HoleFilled(t[..j], a[j], x, t[j..], rest);
    a[j] := x;
    assert a[..] == Insert(t, x, k) + rest;
  }

  /** The inner loop of the insertion step: the items of the prefix that
      belong after `x` move one place right, leaving a hole at `j` where
      `x` goes. */
  method OpenHole(a: array<Item>, i: nat, x: Item, k: SortKey) returns (j: nat)
    requires i < a.Length
    modifies a
    ensures j <= i
    ensures a[..] == old(a[..i])[..j] + [a[j]] + old(a[..i])[j..] + old(a[i + 1..])
    ensures Insert(old(a[..i]), x, k) == old(a[..i])[..j] + [x] + old(a[..i])[j..]
  {
    ghost var t := a[..i];
    ghost var rest := a[i + 1..];
    assert t[..i] == t && t[i..] == [];
    assert a[..] == t[..i] + [a[i]] + t[i..] + rest;
    j := i;
    while j > 0 && After(k, a[j - 1], x)
      invariant 0 <= j <= i
      invariant a[..] == t[..j] + [a[j]] + t[j..] + rest
      invariant forall m :: j <= m < i ==> After(k, t[m], x)
    {
      ghost var b := a[..];
      HoleLeft(t, j, a[j], rest);
      a[j] := a[j - 1];
      assert a[..] == b[j := b[j - 1]];
      j := j - 1;
    }
    if j > 0 {
      HoleLeft(t, j, a[j], rest);
    }
    InsertStops(t, x, k, j);
  }

  /** The array during the insertion step is `t` with a hole at `j` (holding
      some `y`); copying the item left of the hole into it moves the hole one
      place left. */
  lemma HoleLeft<T>(t: seq<T>, j: nat, y: T, rest: seq<T>)
    requires 0 < j <= |t|
    ensures (t[..j] + [y] + t[j..] + rest)[j - 1] == t[j - 1]
    ensures (t[..j] + [y] + t[j..] + rest)[j := t[j - 1]] ==
            t[..j - 1] + [t[j - 1]] + t[j - 1..] + rest
  {
    assert t[..j] == t[..j - 1] + [t[j - 1]];
    assert t[j - 1..] == [t[j - 1]] + t[j..];
  }

  /** Putting `x` into the hole. */
  lemma HoleFilled<T>(p: seq<T>, y: T, x: T, q: seq<T>, rest: seq<T>)
    ensures (p + [y] + q + rest)[|p| := x] == (p + [x] + q) + rest
  {
  }

  /** Sorting one element more of a prefix is one more insertion. */
  lemma SortByPrefix(s: seq<Item>, i: nat, k: SortKey)
    requires i < |s|
    ensures SortBy(s[..i + 1], k) == Insert(SortBy(s[..i], k), s[i], k)
    ensures s[i + 1..] == s[i..][1..]
  {
    assert s[..i + 1][..i] == s[..i];
  }

  /** Sorting an array in place, as `out.sort(...)` does. */
  method SortInPlace(a: array<Item>, k: SortKey)
    modifies a
    ensures a[..] == SortBy(old(a[..]), k)
  {
    ghost var s := a[..];
    var i := 0;
    while i < a.Length
      invariant 0 <= i <= a.Length
      invariant a[..i] == SortBy(s[..i], k)
      invariant a[i..] == s[i..]
    {
      assert a[i] == s[i] by {
        assert a[i..][0] == s[i..][0];
      }
      SortByPrefix(s, i, k);
      InsertInPlace(a, i, k);
      i := i + 1;
    }
    assert a[..] == a[..a.Length];
    assert s == s[..a.Length];
  }

  /** `filtrarOrdenar(arr)` with the search box holding `buscar` and the
      sort selector `orden` (src/main.ts:157-175). With the empty query the
      caller's array itself is sorted and returned; otherwise a new array
      holds the sorted matches and the caller's array is left alone. */
  method FiltrarOrdenar(arr: array<Item>, buscar: string, orden: string)
    returns (out: array<Item>)
    modifies arr
    ensures var q := Lower(Trim(buscar));
      if q == "" then out == arr && arr[..] == SortBy(old(arr[..]), KeyOf(orden))
      else fresh(out) && arr[..] == old(arr[..]) &&
           out[..] == SortBy(Filter(old(arr[..]), q), KeyOf(orden))
  {
    var q := Lower(Trim(buscar));
    out := arr;
    if q != "" {
      var f := Filter(arr[..], q);
      out := new Item[|f|](i requires 0 <= i < |f| => f[i]);
      assert out[..] == f;
    }
    SortInPlace(out, KeyOf(orden));
  }

  lemma LowerTrimBo()
    ensures Lower(Trim("Bo")) == "bo"
  {
    TrimOfTrimmed("Bo");
    LowerBo();
  }

  lemma LowerBo()
    ensures Lower("Bo") == "bo"
  {
  }

  lemma BoltMatchesBo(bolt: Item)
    requires bolt.nombre == "Bolt"
    ensures Matches(bolt, "bo")
  {
    assert Lower("Bolt") == "bolt";
    assert "bo" <= "bolt";
  }

  lemma NutMissesBo(nut: Item)
    requires nut.nombre == "Nut" && nut.categoria == None
    ensures !Matches(nut, "bo")
  {
    assert Lower("Nut") == "nut";
    assert Lower("") == "";
    assert !Includes("", "bo");
    assert !Includes("t", "bo");
    assert !Includes("ut", "bo");
    assert !Includes("nut", "bo");
  }

  /** Searching "Bo" among Bolt and Nut keeps only Bolt, whatever the case
      of the letters. */
  lemma FilterBoltNut(bolt: Item, nut: Item)
    requires bolt.nombre == "Bolt" && bolt.categoria == None
    requires nut.nombre == "Nut" && nut.categoria == None
    ensures Filter([bolt, nut], Lower(Trim("Bo"))) == [bolt]
  {
    LowerTrimBo();
    FilterBoltNutBo(bolt, nut);
  }

  lemma FilterBoltNutBo(bolt: Item, nut: Item)
    requires bolt.nombre == "Bolt" && bolt.categoria == None
    requires nut.nombre == "Nut" && nut.categoria == None
    ensures Filter([bolt, nut], "bo") == [bolt]
  {
    BoltMatchesBo(bolt);
    NutMissesBo(nut);
    assert [bolt, nut][1..] == [nut];
    assert Filter([nut], "bo") == [];
  }

  // KPIs (src/main.ts:177-183).

  /** `arr.reduce((s, x) => s + f(x), 0)` */
  function SumBy(s: seq<Item>, f: Item -> real): real {
    if s == [] then 0.0 else SumBy(s[..|s| - 1], f) + f(s[|s| - 1])
  }

  /** `x.cantidad ?? 0` */
  function Units(x: Item): real {
    x.cantidad
  }

  /** `(x.precio ?? 0) * (x.cantidad ?? 0)` */
  function Value(x: Item): real {
    PrecioOrZero(x) * x.cantidad
  }

  /** The three figures of `refrescarKPIs`: items, units, value. */
  datatype Kpis = Kpis(items: nat, unidades: real, valor: real)

  function RefrescarKpis(arr: seq<Item>): Kpis {
    Kpis(|arr|, SumBy(arr, Units), SumBy(arr, Value))
  }

  lemma {:induction false} SumByConcat(a: seq<Item>, b: seq<Item>, f: Item -> real)
    ensures SumBy(a + b, f) == SumBy(a, f) + SumBy(b, f)
    decreases |b|
  {
    if b != [] {
      var b' := b[..|b| - 1];
      assert (a + b)[..|a + b| - 1] == a + b';
      assert (a + b)[|a + b| - 1] == b[|b| - 1];
      SumByConcat(a, b', f);
    } else {
      assert a + b == a;
    }
  }

  /** A sum over the collection does not depend on the order of its items. */
  lemma {:induction false} SumByPermutation(a: seq<Item>, b: seq<Item>, f: Item -> real)
    requires multiset(a) == multiset(b)
    ensures SumBy(a, f) == SumBy(b, f)
    decreases |a|
  {
    if a != [] {
      var x := a[|a| - 1];
      var a' := a[..|a| - 1];
      assert a == a' + [x];
      assert multiset(a') == multiset(a) - multiset{x};
      assert x in multiset(b);
      var j :| 0 <= j < |b| && b[j] == x;
      RemoveAtMultiset(b, j);
      SumByPermutation(a', b[..j] + b[j + 1..], f);
      SumByRemoveAt(b, j, f);
    }
  }

  /** Taking out the item at `j` takes one occurrence of it out of the
      multiset. */
  lemma RemoveAtMultiset(b: seq<Item>, j: nat)
    requires j < |b|
    ensures multiset(b[..j] + b[j + 1..]) == multiset(b) - multiset{b[j]}
  {
    assert b == b[..j] + [b[j]] + b[j + 1..];
  }

  /** A sum is the sum without the item at `j`, plus that item's term. */
  lemma SumByRemoveAt(b: seq<Item>, j: nat, f: Item -> real)
    requires j < |b|
    ensures SumBy(b, f) == SumBy(b[..j] + b[j + 1..], f) + f(b[j])
  {
    var p, q := b[..j], b[j + 1..];
    assert b == (p + [b[j]]) + q;
    SumByConcat(p + [b[j]], q, f);
    SumByConcat(p, q, f);
    SumByAppendOne(p, b[j], f);
  }

  /** Appending one item adds its term. */
  lemma SumByAppendOne(p: seq<Item>, x: Item, f: Item -> real)
    ensures SumBy(p + [x], f) == SumBy(p, f) + f(x)
  {
    assert (p + [x])[..|p|] == p;
  }

  /** The KPIs are the same for any reordering of the collection, so they
      are the same after `filtrarOrdenar` sorted the caller's array. */
  lemma KpisPermutation(a: seq<Item>, b: seq<Item>)
    requires multiset(a) == multiset(b)
    ensures RefrescarKpis(a) == RefrescarKpis(b)
  {
    SumByPermutation(a, b, Units);
    SumByPermutation(a, b, Value);
    assert |a| == |multiset(a)| == |b|;
  }

  lemma KpisAfterSort(s: seq<Item>, k: SortKey)
    ensures RefrescarKpis(SortBy(s, k)) == RefrescarKpis(s)
  {
    SortByPermutes(s, k);
    KpisPermutation(SortBy(s, k), s);
  }

  /** `render` (src/main.ts:190-192) sorts and then counts the same array:
      after `FiltrarOrdenar` the KPIs of the caller's array are those of
      what was fetched. */
  method Render(arr: array<Item>, buscar: string, orden: string)
    returns (view: array<Item>, kpis: Kpis)
    modifies arr
    ensures kpis == RefrescarKpis(old(arr[..]))
    ensures var q, k := Lower(Trim(buscar)), KeyOf(orden);
      && arr[..] == (if q == "" then SortBy(old(arr[..]), k) else old(arr[..]))
      && view[..] == (if q == "" then SortBy(old(arr[..]), k) else SortBy(Filter(old(arr[..]), q), k))
  {
    ghost var fetched := arr[..];
    view := FiltrarOrdenar(arr, buscar, orden);
    SortByPermutes(fetched, KeyOf(orden));
    KpisPermutation(arr[..], fetched);
    kpis := RefrescarKpis(arr[..]);
  }
}
