/** Reading the item form of the browser client (src/main.ts:86-89 and
    138-155). The five text fields are given as values. */
module Form {
  import opened Items
  import opened JsText

  /** `n(x)`: the number `x` spells when it is finite, else null. */
  function N(x: string): Option<real> {
    match ToNumber(x)
    case Finite(v) => Some(v)
    case NonFinite => None
  }

  /** An empty field reads as 0, because `Number("")` is 0. */
  lemma NOfEmpty()
    ensures N("") == Some(0.0)
  {
  }

  /** A word is not a number. */
  lemma NOfWord()
    ensures N("abc") == None
  {
    assert !IsDigit('a');
  }

  /** `Infinity` is a number, but not a finite one. */
  lemma NOfInfinity()
    ensures N("Infinity") == None && N("-Infinity") == None
  {
    assert "-Infinity"[1..] == "Infinity";
  }

  /** A sign alone is not a number. */
  lemma NOfSign()
    ensures N("-") == None && N("+") == None
  {
    assert "-"[1..] == [] && "+"[1..] == [];
  }

  /** A decimal with a point reads as its value. */
  lemma NOfDecimal()
    ensures N("12.5") == Some(12.5)
  {
  }

  /** Digits on one side of the point are enough. */
  lemma NOfHalfDecimal()
    ensures N(".5") == Some(0.5) && N("3.") == Some(3.0)
  {
  }

  /** The rendering of an integer reads back as that integer. */
  lemma NOfIntToString(i: int)
    ensures N(IntToString(i)) == Some(i as real)
  {
    ToNumberOfIntToString(i);
  }

  /** The values of the inputs `#id`, `#nombre`, `#cantidad`, `#precio`
      and `#categoria`. */
  datatype Campos = Campos(id: string, nombre: string, cantidad: string,
                           precio: string, categoria: string)

  /** The id test of `leerFormulario` (src/main.ts:148): present, not 0, an
      integer, above 0. */
  predicate IdAccepted(id: Option<real>) {
    id.Some? && id.value != 0.0 && id.value.Floor as real == id.value && id.value > 0.0
  }

  /** What the form lets through: an id above 0, a trimmed non-empty
      name, and a trimmed non-empty category when there is one. */
  predicate ValidItem(it: Item) {
    && it.id > 0
    && it.nombre != "" && Trimmed(it.nombre)
    && (it.categoria.Some? ==> it.categoria.value != "" && Trimmed(it.categoria.value))
  }

  /** The five values `leerFormulario` reads before testing them
      (src/main.ts:139-147). */
  datatype Lectura = Lectura(id: Option<real>, nombre: string, cantidad: Option<real>,
                             precio: Option<real>, categoria: Option<string>)

  /** Reading the fields: every text is trimmed; an empty price or category
      field gives nothing, and so does a price that is not a finite number. */
  function Leer(f: Campos): (l: Lectura)
    ensures Trimmed(l.nombre)
    ensures l.categoria.Some? ==> l.categoria.value != "" && Trimmed(l.categoria.value)
    ensures l.precio.Some? ==> Trim(f.precio) != ""
  {
    Lectura(N(Trim(f.id)), Trim(f.nombre), N(Trim(f.cantidad)),
            if Trim(f.precio) == "" then None else N(Trim(f.precio)),
            if Trim(f.categoria) == "" then None else Some(Trim(f.categoria)))
  }

  /** The tests of `leerFormulario` (src/main.ts:148-154) on the values
      read: the item is built exactly when the id is accepted, the name is
      non-empty and the quantity is a number, and it carries those values. */
  function Validar(l: Lectura): (r: Option<Item>)
    ensures r.Some? <==> IdAccepted(l.id) && l.nombre != "" && l.cantidad.Some?
    ensures r.Some? ==> r.value == Item(l.id.value.Floor, l.nombre, l.cantidad.value, l.precio, l.categoria)
    ensures r.Some? ==> r.value.id as real == l.id.value
  {
    if !IdAccepted(l.id) then None
    else if l.nombre == "" then None
    else if l.cantidad.None? then None
    else Some(Item(l.id.value.Floor, l.nombre, l.cantidad.value, l.precio, l.categoria))
  }

  /** `leerFormulario()`: the item the form describes, or null. */
  function LeerFormulario(f: Campos): (r: Option<Item>)
    ensures r.Some? <==>
      IdAccepted(N(Trim(f.id))) && Trim(f.nombre) != "" && N(Trim(f.cantidad)).Some?
    ensures r.Some? ==> ValidItem(r.value)
  {
    Validar(Leer(f))
  }

  /** The fields of the item the form gives (src/main.ts:139-147, 151-153):
      the id and quantity as read, the trimmed name, a price only when the
      price field is non-empty and a finite number, a category only when
      its field is non-empty after trimming. */
  lemma LeerFormularioFields(f: Campos)
    requires LeerFormulario(f).Some?
    ensures var it := LeerFormulario(f).value;
      && it.id as real == N(Trim(f.id)).value
      && it.nombre == Trim(f.nombre)
      && it.cantidad == N(Trim(f.cantidad)).value
      && it.precio == (if Trim(f.precio) == "" then None else N(Trim(f.precio)))
      && it.categoria == (if Trim(f.categoria) == "" then None else Some(Trim(f.categoria)))
  {
  }

  /** A price field that is not a number gives an item without a price, not
      a rejected form. */
  lemma BadPrecioIsDropped(f: Campos)
    requires LeerFormulario(f).Some?
    requires Trim(f.precio) != "" && N(Trim(f.precio)) == None
    ensures LeerFormulario(f).value.precio == None
  {
  }

  // Filling the form from a stored item, as the "Editar" button does
  // (src/main.ts:265-269), and reading it back.

  predicate IsWhole(v: real) {
    v.Floor as real == v
  }

  /** An item the form can show and read back unchanged: numbers that print
      as integers, a trimmed non-empty name, a trimmed non-empty category
      when there is one. */
  predicate Editable(it: Item) {
    && it.id > 0
    && it.nombre != "" && Trimmed(it.nombre)
    && IsWhole(it.cantidad)
    && (it.precio.Some? ==> IsWhole(it.precio.value))
    && (it.categoria.Some? ==> it.categoria.value != "" && Trimmed(it.categoria.value))
  }

  /** The five fields "Editar" fills from a stored item. */
  function FormOf(it: Item): Campos
    requires IsWhole(it.cantidad) && (it.precio.Some? ==> IsWhole(it.precio.value))
  {
    Campos(IntToString(it.id), it.nombre, IntToString(it.cantidad.Floor),
           if it.precio.Some? then IntToString(it.precio.value.Floor) else "",
           it.categoria.GetOr(""))
  }

  /** Loading an item into the form and reading the form gives the item
      back. */
  lemma LeerFormOf(it: Item)
    requires Editable(it)
    ensures LeerFormulario(FormOf(it)) == Some(it)
  {
    ReadFormOf(it);
    ValidarEditable(it);
  }

  /** The tests pass on the values of an editable item, and rebuild it. */
  lemma ValidarEditable(it: Item)
    requires Editable(it)
    ensures Validar(Lectura(Some(it.id as real), it.nombre, Some(it.cantidad), it.precio, it.categoria)) == Some(it)
  {
    assert (it.id as real).Floor == it.id;
  }

  /** The values read from a form filled from `it` are its own. */
  lemma ReadFormOf(it: Item)
    requires Editable(it)
    ensures Leer(FormOf(it)) == Lectura(Some(it.id as real), it.nombre, Some(it.cantidad), it.precio, it.categoria)
  {
    var f := FormOf(it);
    IntegerField(it.id);
    IntegerField(it.cantidad.Floor);
    TrimOfTrimmed(it.nombre);
    PrecioField(it.precio);
    CategoriaField(it.categoria);
  }

  /** The price field shows an integer price, or nothing, and reads back as
      it. */
  lemma PrecioField(p: Option<real>)
    requires p.Some? ==> IsWhole(p.value)
    ensures var f := if p.Some? then IntToString(p.value.Floor) else "";
      (if Trim(f) == "" then None else N(Trim(f))) == p
  {
    if p.Some? {
      IntegerField(p.value.Floor);
    } else {
      TrimOfTrimmed("");
    }
  }

  /** The category field shows a trimmed non-empty category, or nothing,
      and reads back as it. */
  lemma CategoriaField(c: Option<string>)
    requires c.Some? ==> c.value != "" && Trimmed(c.value)
    ensures var f := c.GetOr("");
      (if Trim(f) == "" then None else Some(Trim(f))) == c
  {
    TrimOfTrimmed(c.GetOr(""));
  }

  /** A field showing an integer is non-empty and reads back as it. */
  lemma IntegerField(i: int)
    ensures Trim(IntToString(i)) != "" && N(Trim(IntToString(i))) == Some(i as real)
  {
    IntToStringTrimmed(i);
    TrimOfTrimmed(IntToString(i));
    NOfIntToString(i);
  }
}
