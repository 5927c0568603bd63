/** What the client's form sends to the server (src/main.ts:115-132 and
    212-247 post or put the item `leerFormulario` built) and how the
    figures of `refrescarKPIs` move when a handler of server.ts changes the
    collection. */
module EndToEnd {
  import opened Items
  import opened Server
  import opened View
  import opened Form

  /** The POST body the server sees for an item the form built: the numbers
      arrive as the same finite numbers. */
  function BodyOf(it: Item): PostBody {
    PostBody(Finite(it.id as real), it.nombre, Finite(it.cantidad), it.precio, it.categoria)
  }

  /** The PUT body for an item the form built: name and quantity always
      present, price and category only when the form has them. */
  function PatchOf(it: Item): Patch {
    Patch(Some(it.nombre), Some(it.cantidad), it.precio, it.categoria)
  }

  /** Whatever the form accepts passes the server's validation, so a POST
      of it either creates or sums, never answers with an error. */
  lemma FormItemAccepted(it: Item, s: seq<Item>)
    requires ValidItem(it)
    ensures ValidPost(BodyOf(it))
    ensures PostStep(s, BodyOf(it)).resp.Created? || PostStep(s, BodyOf(it)).resp.Summed?
  {
    var b := BodyOf(it);
    assert (it.id as real).Floor == it.id;
    if IndexOf(s, b.id.v.Floor) >= 0 {
      PostSums(s, b);
    } else {
      PostCreates(s, b);
    }
  }

  /** A POST of a form item adds to the stored item with its id, or appends
      it: the id the server looks up is the form's. */
  lemma BodyOfId(it: Item)
    ensures BodyOf(it).id.v.Floor == it.id
  {
    assert (it.id as real).Floor == it.id;
  }

  /** Editing a stored item through the form can change its name and
      quantity, but an item that had a price or a category keeps one: the
      form sends none for an empty field, and the server then keeps the
      stored value. */
  lemma EditKeepsPriceAndCategory(s: seq<Item>, it: Item)
    requires IndexOf(s, it.id) >= 0
    ensures var i := IndexOf(s, it.id);
      var w := PutStep(s, it.id, PatchOf(it)).written.value;
      && w[i].nombre == it.nombre
      && w[i].cantidad == it.cantidad
      && (s[i].precio.Some? ==> w[i].precio.Some?)
      && (s[i].categoria.Some? ==> w[i].categoria.Some?)
  {
  }

  /** A sum changes by the difference of one term when one item is
      replaced. */
  lemma SumByUpdate(s: seq<Item>, i: nat, y: Item, f: Item -> real)
    requires i < |s|
    ensures SumBy(s[i := y], f) == SumBy(s, f) - f(s[i]) + f(y)
  {
    var u := s[i := y];
    assert u[..i] == s[..i] && u[i + 1..] == s[i + 1..];
    SumByRemoveAt(s, i, f);
    SumByRemoveAt(u, i, f);
  }

  /** After a valid POST the item count grows by one exactly when the id
      was new, and the units grow by the body's quantity in both cases. */
  lemma PostKpis(s: seq<Item>, b: PostBody)
    requires ValidPost(b)
    ensures var before, after := RefrescarKpis(s), RefrescarKpis(PostStep(s, b).written.value);
      && after.items == before.items + (if IndexOf(s, b.id.v.Floor) >= 0 then 0 else 1)
      && after.unidades == before.unidades + b.cantidad.v
  {
    var i := IndexOf(s, b.id.v.Floor);
    if i >= 0 {
      PostSums(s, b);
      var w := PostStep(s, b).written.value;
      assert w == s[i := w[i]];
      SumByUpdate(s, i, w[i], Units);
    } else {
      PostCreates(s, b);
      var w := PostStep(s, b).written.value;
      assert w == s + [w[|s|]];
      SumByAppendOne(s, w[|s|], Units);
    }
  }

  /** After a PUT that found the item the count stays, and the units and
      the value change by the difference between the new item's share and
      the old one's. */
  lemma PutKpis(s: seq<Item>, id: int, p: Patch)
    requires IndexOf(s, id) >= 0
    ensures var i := IndexOf(s, id);
      var x, y := s[i], PutStep(s, id, p).resp.item;
      var before, after := RefrescarKpis(s), RefrescarKpis(PutStep(s, id, p).written.value);
      && after.items == before.items
      && after.unidades == before.unidades - x.cantidad + y.cantidad
      && after.valor == before.valor - Value(x) + Value(y)
  {
    var i := IndexOf(s, id);
    var y := Overlay(s[i], p);
    assert PutStep(s, id, p) == Step(Some(s[i := y]), Updated(y));
    SumByUpdate(s, i, y, Units);
    SumByUpdate(s, i, y, Value);
  }

  /** After a DELETE that found the item the count drops by one, and the
      units and the value drop by exactly the removed item's share. */
  lemma DeleteKpis(s: seq<Item>, id: int)
    requires IndexOf(s, id) >= 0
    ensures var x := DeleteStep(s, id).resp.item;
      var before, after := RefrescarKpis(s), RefrescarKpis(DeleteStep(s, id).written.value);
      && after.items == before.items - 1
      && after.unidades == before.unidades - x.cantidad
      && after.valor == before.valor - Value(x)
  {
    var i := IndexOf(s, id);
    var x := s[i];
    var w := s[..i] + s[i + 1..];
    assert DeleteStep(s, id) == Step(Some(w), Deleted(x));
    SumByRemoveAt(s, i, Units);
    SumByRemoveAt(s, i, Value);
    assert RefrescarKpis(w) == Kpis(|s| - 1, SumBy(s, Units) - x.cantidad, SumBy(s, Value) - Value(x));
  }
}
