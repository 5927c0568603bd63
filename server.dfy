/** The item store behind the POST, PUT and DELETE handlers of server.ts
    (lines 37-88). Each handler reads the whole collection from the backing
    file, changes it, and writes the whole collection back. */
module Server {
  import opened Items

  /** A POST body after the handler's coercions (server.ts:39-44):
      `Number(body.id)`, `String(body.nombre ?? "")`, `Number(body.cantidad)`,
      and `precio`/`categoria` present only when the body has them. */
  datatype PostBody = PostBody(id: Num, nombre: string, cantidad: Num,
                               precio: Option<real>, categoria: Option<string>)

  /** A PUT body: each field is `None` when the body leaves it out (or sets it
      to null), which is when `??` falls back to the stored value. */
  datatype Patch = Patch(nombre: Option<string>, cantidad: Option<real>,
                         precio: Option<real>, categoria: Option<string>)

  /** What a handler answers: `{accion: "creado"}` (201), `{accion: "sumado"}`
      (200), the updated or removed item (200), `{error: "datos"}` (400) and
      `{error: "noexiste"}` (404). */
  datatype Response =
    | Created(item: Item)
    | Summed(item: Item)
    | Updated(item: Item)
    | Deleted(item: Item)
    | BadRequest
    | NotFound

  /** One handler run: the collection it writes back (`None` when it writes
      nothing) and its response. */
  datatype Step = Step(written: Option<seq<Item>>, resp: Response)

  /** POST's validation (server.ts:45): an integer id above 0, a non-empty
      name and a finite quantity. */
  predicate ValidPost(b: PostBody) {
    IsInteger(b.id) && b.id.v > 0.0 && b.nombre != "" && b.cantidad.Finite?
  }

  /** `arr.findIndex((x) => x.id === id)`: the first position holding `id`,
      or -1. */
  function IndexOf(s: seq<Item>, id: int): (i: int)
    ensures -1 <= i < |s|
    ensures i >= 0 ==> s[i].id == id
  {
    if s == [] then -1
    else if s[0].id == id then 0
    else
      var j := IndexOf(s[1..], id);
      if j < 0 then -1 else j + 1
  }

  /** No item before the position `IndexOf` finds holds the id, and it
      finds none exactly when no item holds it. */
  lemma {:induction false} IndexOfFirst(s: seq<Item>, id: int)
    ensures IndexOf(s, id) >= 0 ==> forall k :: 0 <= k < IndexOf(s, id) ==> s[k].id != id
    ensures IndexOf(s, id) == -1 <==> forall k :: 0 <= k < |s| ==> s[k].id != id
  {
    if s != [] && s[0].id != id {
      IndexOfFirst(s[1..], id);
      assert forall k :: 1 <= k < |s| ==> s[k] == s[1..][k - 1];
    }
  }

  /** The position of the first item holding `id` is what `IndexOf` finds. */
  lemma IndexOfIs(s: seq<Item>, id: int, i: nat)
    requires i < |s| && s[i].id == id
    requires forall k :: 0 <= k < i ==> s[k].id != id
    ensures IndexOf(s, id) == i
  {
    IndexOfFirst(s, id);
  }

  /** Under unique ids, a position holding `id` is the one `IndexOf` finds. */
  lemma IndexOfUnique(s: seq<Item>, id: int, i: nat)
    requires UniqueIds(s) && i < |s| && s[i].id == id
    ensures IndexOf(s, id) == i
  {
    IndexOfIs(s, id, i);
  }

  /** `arr.findIndex`, as the loop it runs. */
  method FindIndex(arr: seq<Item>, id: int) returns (i: int)
    ensures i == IndexOf(arr, id)
  {
    i := 0;
    while i < |arr|
      invariant 0 <= i <= |arr|
      invariant forall k :: 0 <= k < i ==> arr[k].id != id
    {
      if arr[i].id == id {
        IndexOfIs(arr, id, i);
        return;
      }
      i := i + 1;
    }
    IndexOfFirst(arr, id);
    i := -1;
  }

  /** The item POST stores for a fresh id (server.ts:56-58). */
  function NewItem(b: PostBody): (it: Item)
    requires ValidPost(b)
  {
    Item(b.id.v.Floor, b.nombre, b.cantidad.v, b.precio, b.categoria)
  }

  /** The stored item after POST adds to it (server.ts:50-52): the quantity
      grows by the body's, price and category are overwritten only when
      supplied. */
  function Merged(x: Item, b: PostBody): (it: Item)
    requires b.cantidad.Finite?
  {
    x.(cantidad := x.cantidad + b.cantidad.v,
       precio := Or(b.precio, x.precio),
       categoria := Or(b.categoria, x.categoria))
  }

  /** POST /api/items on the collection `s` that was read (server.ts:45-62). */
  function PostStep(s: seq<Item>, b: PostBody): (st: Step)
    ensures !ValidPost(b) <==> st == Step(None, BadRequest)
    ensures ValidPost(b) ==> st.written.Some?
  {
    if !ValidPost(b) then Step(None, BadRequest)
    else
      var i := IndexOf(s, b.id.v.Floor);
      if i >= 0 then
        var w := s[i := Merged(s[i], b)];
        Step(Some(w), Summed(w[i]))
      else
        var it := NewItem(b);
        Step(Some(s + [it]), Created(it))
  }

  /** POST of a stored id (server.ts:48-54): the quantity is the old one
      plus the body's, price and category change only when the body has
      them, the id, the name, the length and every other item stay, and the
      answer is `sumado` with the updated item. */
  lemma PostSums(s: seq<Item>, b: PostBody)
    requires ValidPost(b) && IndexOf(s, b.id.v.Floor) >= 0
    ensures var i, st := IndexOf(s, b.id.v.Floor), PostStep(s, b);
      st.written.Some? &&
      var w := st.written.value;
      && |w| == |s|
      && w[i].id == s[i].id
      && w[i].nombre == s[i].nombre
      && w[i].cantidad == s[i].cantidad + b.cantidad.v
      && w[i].precio == (if b.precio.Some? then b.precio else s[i].precio)
      && w[i].categoria == (if b.categoria.Some? then b.categoria else s[i].categoria)
      && (forall k :: 0 <= k < |s| && k != i ==> w[k] == s[k])
      && st.resp == Summed(w[i])
  {
  }

  /** POST of a fresh id (server.ts:55-61): one new item at the end, with
      the body's id, name and quantity, and price and category only when the
      body has them; everything before it stays, and the answer is `creado`
      with the new item. */
  lemma PostCreates(s: seq<Item>, b: PostBody)
    requires ValidPost(b) && IndexOf(s, b.id.v.Floor) < 0
    ensures var st := PostStep(s, b);
      st.written.Some? &&
      var w := st.written.value;
      && |w| == |s| + 1
      && w[..|s|] == s
      && w[|s|].id as real == b.id.v
      && w[|s|].nombre == b.nombre
      && w[|s|].cantidad == b.cantidad.v
      && w[|s|].precio == b.precio
      && w[|s|].categoria == b.categoria
      && st.resp == Created(w[|s|])
  {
  }

  /** The item PUT stores (server.ts:71-75): each field from the body when it
      has one, else the stored value. */
  function Overlay(x: Item, p: Patch): (it: Item)
  {
    Item(x.id, p.nombre.GetOr(x.nombre), p.cantidad.GetOr(x.cantidad),
         Or(p.precio, x.precio), Or(p.categoria, x.categoria))
  }

  /** PUT /api/items/:id on the collection `s` that was read (server.ts:68-77). */
  function PutStep(s: seq<Item>, id: int, p: Patch): (st: Step)
    ensures IndexOf(s, id) < 0 <==> st == Step(None, NotFound)
    ensures IndexOf(s, id) >= 0 ==>
      var i := IndexOf(s, id);
      && st.written.Some?
      && var w := st.written.value;
      && |w| == |s|
      && (forall k :: 0 <= k < |s| && k != i ==> w[k] == s[k])
      && w[i].id == id
      && w[i].nombre == (if p.nombre.Some? then p.nombre.value else s[i].nombre)
      && w[i].cantidad == (if p.cantidad.Some? then p.cantidad.value else s[i].cantidad)
      && w[i].precio == (if p.precio.Some? then p.precio else s[i].precio)
      && w[i].categoria == (if p.categoria.Some? then p.categoria else s[i].categoria)
      && st.resp == Updated(w[i])
  {
    var i := IndexOf(s, id);
    if i < 0 then Step(None, NotFound)
    else
      var w := s[i := Overlay(s[i], p)];
      Step(Some(w), Updated(w[i]))
  }

  /** DELETE /api/items/:id on the collection `s` that was read
      (server.ts:82-87). */
  function DeleteStep(s: seq<Item>, id: int): (st: Step)
    ensures IndexOf(s, id) < 0 <==> st == Step(None, NotFound)
    ensures IndexOf(s, id) >= 0 ==>
      var i := IndexOf(s, id);
      && st.resp == Deleted(s[i])
      && st.written == Some(s[..i] + s[i + 1..])
      && |st.written.value| == |s| - 1
  {
    var i := IndexOf(s, id);
    if i < 0 then Step(None, NotFound)
    else Step(Some(s[..i] + s[i + 1..]), Deleted(s[i]))
  }

  /** The backing file `data/inventario.json`. `blob` is `None` when the file
      is missing or does not parse; reading it then gives the empty
      collection (server.ts:21-27). */
  class Store {
    var blob: Option<seq<Item>>

    constructor (initial: Option<seq<Item>>)
      ensures blob == initial
    {
      blob := initial;
    }

    /** `leer()` */
    function Leer(): seq<Item>
      reads this
    {
      match blob
      case Some(s) => s
      case None => []
    }

    /** `escribir(arr)`: the whole collection replaces the file. */
    method Escribir(arr: seq<Item>)
      modifies this
      ensures blob == Some(arr)
    {
      blob := Some(arr);
    }

    method Post(b: PostBody) returns (r: Response)
      modifies this
      ensures var st := PostStep(old(Leer()), b);
        r == st.resp && blob == (if st.written.Some? then st.written else old(blob))
    {
      if !(IsInteger(b.id) && b.id.v > 0.0 && b.nombre != "" && b.cantidad.Finite?) {
        return BadRequest;
      }
      var id := b.id.v.Floor;
      var arr := Leer();
      var i := FindIndex(arr, id);
      if i >= 0 {
        var x := arr[i];
        x := x.(cantidad := x.cantidad + b.cantidad.v);
        if b.precio.Some? {
          x := x.(precio := b.precio);
        }
        if b.categoria.Some? {
          x := x.(categoria := b.categoria);
        }
        arr := arr[i := x];
        Escribir(arr);
        r := Summed(arr[i]);
      } else {
        var nuevo := Item(id, b.nombre, b.cantidad.v, None, None);
        if b.precio.Some? {
          nuevo := nuevo.(precio := b.precio);
        }
        if b.categoria.Some? {
          nuevo := nuevo.(categoria := b.categoria);
        }
        arr := arr + [nuevo];
        Escribir(arr);
        r := Created(nuevo);
      }
    }

    method Put(id: int, p: Patch) returns (r: Response)
      modifies this
      ensures var st := PutStep(old(Leer()), id, p);
        r == st.resp && blob == (if st.written.Some? then st.written else old(blob))
    {
      var arr := Leer();
      var i := FindIndex(arr, id);
      if i == -1 {
        return NotFound;
      }
      var nombre := if p.nombre.Some? then p.nombre.value else arr[i].nombre;
      var cantidad := if p.cantidad.Some? then p.cantidad.value else arr[i].cantidad;
      var precio := if p.precio.Some? then p.precio else arr[i].precio;
      var categoria := if p.categoria.Some? then p.categoria else arr[i].categoria;
      arr := arr[i := Item(id, nombre, cantidad, precio, categoria)];
      Escribir(arr);
      r := Updated(arr[i]);
    }

    method Delete(id: int) returns (r: Response)
      modifies this
      ensures var st := DeleteStep(old(Leer()), id);
        r == st.resp && blob == (if st.written.Some? then st.written else old(blob))
    {
      var arr := Leer();
      var i := FindIndex(arr, id);
      if i == -1 {
        return NotFound;
      }
      var del := arr[i];
      arr := arr[..i] + arr[i + 1..];
      Escribir(arr);
      r := Deleted(del);
    }
  }

  // Properties that relate several handler runs.

  /** POST keeps ids unique: it appends only when no item has the id. */
  lemma PostKeepsIdsUnique(s: seq<Item>, b: PostBody)
    requires UniqueIds(s) && ValidPost(b)
    ensures UniqueIds(PostStep(s, b).written.value)
  {
    IndexOfFirst(s, b.id.v.Floor);
  }

  /** PUT keeps the ids where they were, so it keeps them unique. */
  lemma PutKeepsIdsUnique(s: seq<Item>, id: int, p: Patch)
    requires UniqueIds(s) && IndexOf(s, id) >= 0
    ensures UniqueIds(PutStep(s, id, p).written.value)
  {
  }

  /** PUT with an empty body writes back what it read and answers with the
      item unchanged. */
  lemma PutEmptyPatch(s: seq<Item>, id: int)
    requires IndexOf(s, id) >= 0
    ensures PutStep(s, id, Patch(None, None, None, None)) ==
      Step(Some(s), Updated(s[IndexOf(s, id)]))
  {
    var i := IndexOf(s, id);
    assert s[i := Overlay(s[i], Patch(None, None, None, None))] == s;
  }

  /** DELETE keeps the other items in their order and, under unique ids,
      leaves no item with the removed id, so a second DELETE of it answers
      not-found and writes nothing. */
  lemma {:induction false} DeleteRemovesId(s: seq<Item>, id: int)
    requires UniqueIds(s) && IndexOf(s, id) >= 0
    ensures var w := DeleteStep(s, id).written.value;
      IsSubseq(w, s) && UniqueIds(w) &&
      (forall k :: 0 <= k < |w| ==> w[k].id != id) &&
      DeleteStep(w, id) == Step(None, NotFound)
  {
    var i := IndexOf(s, id);
    var w := s[..i] + s[i + 1..];
    RemoveAtIsSubseq(s, i);
    assert forall k :: 0 <= k < |w| ==> w[k] == (if k < i then s[k] else s[k + 1]);
  }

  /** Two POSTs of one id on a collection without it leave a single new
      item at the end: its name from the first body, the sum of both
      quantities, and price and category from the second body when it has
      them, else from the first. */
  lemma PostTwiceFresh(s: seq<Item>, b1: PostBody, b2: PostBody)
    requires ValidPost(b1) && ValidPost(b2) && b1.id == b2.id
    requires IndexOf(s, b1.id.v.Floor) < 0
    ensures var s1 := PostStep(s, b1).written.value;
      var st := PostStep(s1, b2);
      var x := Item(b1.id.v.Floor, b1.nombre, b1.cantidad.v + b2.cantidad.v,
                    Or(b2.precio, b1.precio), Or(b2.categoria, b1.categoria));
      && PostStep(s, b1).resp == Created(NewItem(b1))
      && st == Step(Some(s + [x]), Summed(x))
  {
    var s1 := PostStep(s, b1).written.value;
    assert s1 == s + [NewItem(b1)];
    assert forall k :: 0 <= k < |s| ==> s1[k] == s[k];
    assert s1[|s|].id == b1.id.v.Floor;
    IndexOfFirst(s, b1.id.v.Floor);
    IndexOfIs(s1, b1.id.v.Floor, |s|);
    assert s1[|s| := Merged(NewItem(b1), b2)] == s + [Merged(NewItem(b1), b2)];
  }

  /** Two POSTs of one id that is already stored at position `i` add both
      quantities to it and change nothing else in the collection. */
  lemma PostTwiceExisting(s: seq<Item>, b1: PostBody, b2: PostBody)
    requires ValidPost(b1) && ValidPost(b2) && b1.id == b2.id
    requires IndexOf(s, b1.id.v.Floor) >= 0
    ensures var i := IndexOf(s, b1.id.v.Floor);
      var s1 := s[i := Merged(s[i], b1)];
      var x := s[i].(cantidad := s[i].cantidad + b1.cantidad.v + b2.cantidad.v,
                     precio := Or(b2.precio, Or(b1.precio, s[i].precio)),
                     categoria := Or(b2.categoria, Or(b1.categoria, s[i].categoria)));
      PostStep(s, b1).written == Some(s1) && PostStep(s1, b2) == Step(Some(s[i := x]), Summed(x))
  {
    var id := b1.id.v.Floor;
    assert b2.id.v.Floor == id;
    var i := IndexOf(s, id);
    var m1 := Merged(s[i], b1);
    var s1 := s[i := m1];
    PostOnExisting(s, b1);
    IndexOfUpdate(s, id, m1);
    assert s1[i] == m1;
    PostOnExisting(s1, b2);
    UpdateTwice(s, i, m1, Merged(m1, b2));
  }

  lemma UpdateTwice<T>(s: seq<T>, i: nat, a: T, b: T)
    requires i < |s|
    ensures s[i := a][i := b] == s[i := b]
  {
  }

  /** Changing the first item that holds `id` into another item with that
      id leaves it the first. */
  lemma IndexOfUpdate(s: seq<Item>, id: int, x: Item)
    requires IndexOf(s, id) >= 0 && x.id == id
    ensures IndexOf(s[IndexOf(s, id) := x], id) == IndexOf(s, id)
  {
    var i := IndexOf(s, id);
    var t := s[i := x];
    IndexOfFirst(s, id);
    IndexOfIs(t, id, i);
  }

  /** POST of a stored id, as one update of the collection. */
  lemma PostOnExisting(s: seq<Item>, b: PostBody)
    requires ValidPost(b) && IndexOf(s, b.id.v.Floor) >= 0
    ensures var i := IndexOf(s, b.id.v.Floor);
      PostStep(s, b) == Step(Some(s[i := Merged(s[i], b)]), Summed(Merged(s[i], b)))
  {
  }

  /** An example run: on an empty store, POST bolt
      x10 creates it, POST bolt x5 sums to 15, DELETE returns the item with
      15 and leaves the store empty. */
  method BoltScenario() returns (s: Store)
    ensures s.blob == Some([])
  {
    s := new Store(None);
    var r1 := s.Post(PostBody(Finite(1.0), "bolt", Finite(10.0), None, None));
    assert r1 == Created(Item(1, "bolt", 10.0, None, None));
    var r2 := s.Post(PostBody(Finite(1.0), "bolt", Finite(5.0), None, None));
    assert r2 == Summed(Item(1, "bolt", 15.0, None, None));
    var r3 := s.Delete(1);
    assert r3 == Deleted(Item(1, "bolt", 15.0, None, None));
    var r4 := s.Delete(1);
    assert r4 == NotFound;
  }
}
