/** The inventory record shared by the server (server.ts:7-13) and the
    browser client (src/main.ts:3-9), with the small value types both use. */
module Items {

  datatype Option<+T> = None | Some(value: T) {
    function GetOr(default: T): T {
      match this
      case Some(v) => v
      case None => default
    }
  }

  /** JavaScript's `a ?? b` on two optional values: the first if present. */
  function Or<T>(a: Option<T>, b: Option<T>): Option<T> {
    if a.Some? then a else b
  }

  /** A JavaScript number, without rounding: either a finite value or one of
      NaN, +Infinity, -Infinity (which the code only ever tests for
      finiteness, so they are not told apart). */
  datatype Num = Finite(v: real) | NonFinite

  /** `Number.isInteger` */
  predicate IsInteger(n: Num) {
    n.Finite? && n.v.Floor as real == n.v
  }

  /** An inventory item: `id`, `nombre` (name), `cantidad` (quantity),
      optional `precio` (price) and optional `categoria` (category). */
  datatype Item = Item(id: int, nombre: string, cantidad: real,
                       precio: Option<real>, categoria: Option<string>)

  /** `x.precio ?? 0` */
  function PrecioOrZero(x: Item): real {
    x.precio.GetOr(0.0)
  }

  /** No two items of the collection share an id. */
  predicate UniqueIds(s: seq<Item>) {
    forall j, k :: 0 <= j < k < |s| ==> s[j].id != s[k].id
  }

  /** `a` is `b` with some elements left out, the rest in their order. */
  predicate IsSubseq<T(==)>(a: seq<T>, b: seq<T>)
    decreases |b|
  {
    a == [] || (b != [] && ((a[0] == b[0] && IsSubseq(a[1..], b[1..])) || IsSubseq(a, b[1..])))
  }

  lemma {:induction false} SubseqOfSelf<T>(s: seq<T>)
    ensures IsSubseq(s, s)
    decreases |s|
  {
    if s != [] {
      SubseqOfSelf(s[1..]);
    }
  }

  /** Removing the element at index `i` keeps the others in order. */
  lemma {:induction false} RemoveAtIsSubseq<T>(s: seq<T>, i: nat)
    requires i < |s|
    ensures IsSubseq(s[..i] + s[i + 1..], s)
    decreases i
  {
    if i == 0 {
      assert s[..0] + s[1..] == s[1..];
      SubseqOfSelf(s[1..]);
    } else {
      var r := s[..i] + s[i + 1..];
      var t := s[1..];
      assert t[..i - 1] + t[i..] == r[1..];
      RemoveAtIsSubseq(t, i - 1);
    }
  }
}
