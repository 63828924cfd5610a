/**
 * The schema registry: the four fixed-width layouts of the "Libro IVA
 * Digital" export (sales and purchases, each as an invoice book and a
 * tax-rate breakdown book), their expected line widths and the fields whose
 * amounts are summed per book.
 */
module Layouts {
  import opened Wrappers
  import opened Failures

  /** Inclusive character positions: a `(start, end)` pair or a single position. */
  datatype Positions = Span(start: nat, end: nat) | At(index: nat)

  /** One column: number, name, positions, data type, declared length and observation text. */
  datatype FieldDef = FieldDef(
    number: nat,
    name: string,
    positions: Positions,
    dataType: string,
    length: nat,
    observations: Option<string>)

  type Layout = seq<FieldDef>

  const VENTAS_CBTE: string := "libro_iva_digital_ventas_cbte"
  const VENTAS_ALICUOTA: string := "libro_iva_digital_ventas_alicuota"
  const COMPRAS_CBTE: string := "libro_iva_digital_compras_cbte"
  const COMPRAS_ALICUOTA: string := "libro_iva_digital_compras_alicuota"

  /** Observation texts the decoders dispatch on, compared as exact strings. */
  const MONEY_TEXT: string := "13 enteros 2 decimales sin punto decimal"
  const RATE_TEXT: string := "4 enteros 6 decimales sin punto decimal"
  const ZERO_PAD_TEXT: string := "Completar con ceros a la izquierda"
  const ZERO_PAD_SHORT_TEXT: string := "Completar con ceros a izquierda"

  /** The declared operation total, compared against the computed sum. */
  const TOTAL_FIELD: nat := 9
  /** The counterparty tax-ID field of both invoice books. */
  const DOCUMENT_FIELD: nat := 7

  /** Fields 1 to 8 of `VentasCbte`. */
  const VentasCbtePart1: Layout := [
    FieldDef(1, "Fecha de comprobante", Span(0, 7), "Numérico", 8, Some("AAAAMMDD")),
    FieldDef(2, "Tipo de comprobante", Span(8, 10), "Numérico", 3, Some("Según tabla Comprobantes Ventas")),
    FieldDef(3, "Punto de venta", Span(11, 15), "Numérico", 5, None),
    FieldDef(4, "Número de comprobante", Span(16, 35), "Numérico", 20, None),
    FieldDef(5, "Número de comprobante hasta", Span(36, 55), "Numérico", 20, None),
    FieldDef(6, "Código de documento del comprador", Span(56, 57), "Numérico", 2, Some("Según tabla Documentos")),
    FieldDef(7, "Número de identificación del comprador", Span(58, 77), "Alfaumérico", 20, Some("Completar con ceros a la izquierda")),
    FieldDef(8, "Apellido y nombre o denominación del comprador", Span(78, 107), "Alfanumérico", 30, None)
  ]

  /** Fields 9 to 15 of `VentasCbte`. */
  const VentasCbtePart2: Layout := [
    FieldDef(9, "Importe total de la operación", Span(108, 122), "Numérico", 15, Some("13 enteros 2 decimales sin punto decimal")),
    FieldDef(10, "Importe total de conceptos que no integran el precio neto gravado", Span(123, 137), "Numérico", 15, Some("13 enteros 2 decimales sin punto decimal")),
    FieldDef(11, "Percepción a no categorizados", Span(138, 152), "Numérico", 15, Some("13 enteros 2 decimales sin punto decimal")),
    FieldDef(12, "Importe de operaciones exentas", Span(153, 167), "Numérico", 15, Some("13 enteros 2 decimales sin punto decimal")),
    FieldDef(13, "Importe de percepciones o pagos a cuenta de impuestos nacionales", Span(168, 182), "Numérico", 15, Some("13 enteros 2 decimales sin punto decimal")),
    FieldDef(14, "Importe de percepciones de ingresos brutos", Span(183, 197), "Numérico", 15, Some("13 enteros 2 decimales sin punto decimal")),
    FieldDef(15, "Importe de percepciones de impuestos municipales", Span(198, 212), "Numérico", 15, Some("13 enteros 2 decimales sin punto decimal"))
  ]

  /** Fields 16 to 22 of `VentasCbte`. */
  const VentasCbtePart3: Layout := [
    FieldDef(16, "Importe de impuestos internos", Span(213, 227), "Numérico", 15, Some("13 enteros 2 decimales sin punto decimal")),
    FieldDef(17, "Código de moneda", Span(228, 230), "Alfaumérico", 3, Some("Según tabla Tipo de Monedas")),
    FieldDef(18, "Tipo de cambio", Span(231, 240), "Numérico", 10, Some("4 enteros 6 decimales sin punto decimal")),
    FieldDef(19, "Cantidad de alícuotas de IVA", At(241), "Numérico", 1, None),
    FieldDef(20, "Código de operación", At(242), "Alfabético", 1, Some("Según tabla Código de Operación")),
    FieldDef(21, "Otros tributos", Span(243, 257), "Numérico", 15, Some("13 enteros 2 decimales sin punto decimal")),
    FieldDef(22, "Fecha de Vencimiento o Pago", Span(258, 265), "Numérico", 8, Some("AAAAMMDD"))
  ]

  /** The `libro_iva_digital_ventas_cbte` record layout. */
  const VentasCbte: Layout := VentasCbtePart1 + VentasCbtePart2 + VentasCbtePart3

  /** The `libro_iva_digital_ventas_alicuota` record layout. */
  const VentasAlicuota: Layout := [
    FieldDef(1, "Tipo de comprobante", Span(0, 2), "Numérico", 3, Some("Según tabla de Comprobantes")),
    FieldDef(2, "Punto de venta", Span(3, 7), "Numérico", 5, None),
    FieldDef(3, "Número de comprobante", Span(8, 27), "Numérico", 20, None),
    FieldDef(4, "Importe neto gravado", Span(28, 42), "Numérico", 15, Some("13 enteros 2 decimales sin punto decimal")),
    FieldDef(5, "Alícuota de IVA", Span(43, 46), "Numérico", 4, Some("Según tabla Alícuotas")),
    FieldDef(6, "Impuesto Liquidado", Span(47, 61), "Numérico", 15, Some("13 enteros 2 decimales sin punto decimal"))
  ]

  /** Fields 1 to 8 of `ComprasCbte`. */
  const ComprasCbtePart1: Layout := [
    FieldDef(1, "Fecha de comprobante", Span(0, 7), "Numérico", 8, Some("AAAAMMDD")),
    FieldDef(2, "Tipo de comprobante", Span(8, 10), "Numérico", 3, Some("Según tabla Comprobantes Compra")),
    FieldDef(3, "Punto de venta", Span(11, 15), "Numérico", 5, None),
    FieldDef(4, "Número de comprobante", Span(16, 35), "Numérico", 20, None),
    FieldDef(5, "Despacho de importación", Span(36, 51), "Alfaumérico", 16, None),
    FieldDef(6, "Código de documento del vendedor", Span(52, 53), "Numérico", 2, Some("Según tabla Documentos")),
    FieldDef(7, "Número de identificación del vendedor", Span(54, 73), "Alfaumérico", 20, Some("Completar con ceros a la izquierda")),
    FieldDef(8, "Apellido y nombre o denominación del vendedor", Span(74, 103), "Alfanumérico", 30, None)
  ]

  /** Fields 9 to 16 of `ComprasCbte`. */
  const ComprasCbtePart2: Layout := [
    FieldDef(9, "Importe total de la operación", Span(104, 118), "Numérico", 15, Some("13 enteros 2 decimales sin punto decimal")),
    FieldDef(10, "Importe total de conceptos que no integran el precio neto gravado", Span(119, 133), "Numérico", 15, Some("13 enteros 2 decimales sin punto decimal")),
    FieldDef(11, "Importe de operaciones exentas", Span(134, 148), "Numérico", 15, Some("13 enteros 2 decimales sin punto decimal")),
    FieldDef(12, "Importe de percepciones o pagos a cuenta del Impuesto al Valor Agregado", Span(149, 163), "Numérico", 15, Some("13 enteros 2 decimales sin punto decimal")),
    FieldDef(13, "Importe de percepciones o pagos a cuenta de impuestos nacionales", Span(164, 178), "Numérico", 15, Some("13 enteros 2 decimales sin punto decimal")),
    FieldDef(14, "Importe de percepciones de ingresos brutos", Span(179, 193), "Numérico", 15, Some("13 enteros 2 decimales sin punto decimal")),
    FieldDef(15, "Importe de percepciones de impuestos municipales", Span(194, 208), "Numérico", 15, Some("13 enteros 2 decimales sin punto decimal")),
    FieldDef(16, "Importe de impuestos internos", Span(209, 223), "Numérico", 15, Some("13 enteros 2 decimales sin punto decimal"))
  ]

  /** Fields 17 to 25 of `ComprasCbte`. */
  const ComprasCbtePart3: Layout := [
    FieldDef(17, "Código de moneda", Span(224, 226), "Alfaumérico", 3, Some("Según tabla Tipo de Monedas")),
    FieldDef(18, "Tipo de cambio", Span(227, 236), "Numérico", 10, Some("4 enteros 6 decimales sin punto decimal")),
    FieldDef(19, "Cantidad de alícuotas de IVA", At(237), "Numérico", 1, None),
    FieldDef(20, "Código de operación", At(238), "Alfabético", 1, Some("Según tabla Código de Operación")),
    FieldDef(21, "Crédito Fiscal Computable", Span(239, 253), "Numérico", 15, Some("13 enteros 2 decimales sin punto decimal")),
    FieldDef(22, "Otros Tributos", Span(254, 268), "Numérico", 15, Some("13 enteros 2 decimales sin punto decimal")),
    FieldDef(23, "CUIT emisor/corredor", Span(269, 279), "Numérico", 11, None),
    FieldDef(24, "Denominación del emisor/corredor", Span(280, 309), "Alfanumérico", 30, None),
    FieldDef(25, "IVA comisión", Span(310, 324), "Numérico", 15, Some("13 enteros 2 decimales sin punto decimal"))
  ]

  /** The `libro_iva_digital_compras_cbte` record layout. */
  const ComprasCbte: Layout := ComprasCbtePart1 + ComprasCbtePart2 + ComprasCbtePart3

  /** The `libro_iva_digital_compras_alicuota` record layout. */
  const ComprasAlicuota: Layout := [
    FieldDef(1, "Tipo de comprobante", Span(0, 2), "Numérico", 3, Some("Según tabla de Comprobantes")),
    FieldDef(2, "Punto de venta", Span(3, 7), "Numérico", 5, None),
    FieldDef(3, "Número de comprobante", Span(8, 27), "Numérico", 20, None),
    FieldDef(4, "Código de documento del vendedor", Span(28, 29), "Numérico", 2, Some("Según tabla Documentos")),
    FieldDef(5, "Número de identificación del Vendedor", Span(30, 49), "Alfanumérico", 20, Some("Completar con ceros a izquierda")),
    FieldDef(6, "Importe neto gravado", Span(50, 64), "Numérico", 15, Some("13 enteros 2 decimales sin punto decimal")),
    FieldDef(7, "Alícuota de IVA", Span(65, 68), "Numérico", 4, Some("Según tabla de Alícuotas")),
    FieldDef(8, "Impuesto liquidado", Span(69, 83), "Numérico", 15, Some("13 enteros 2 decimales sin punto decimal"))
  ]

  predicate IsBookName(name: string) {
    name == VENTAS_CBTE || name == VENTAS_ALICUOTA || name == COMPRAS_CBTE || name == COMPRAS_ALICUOTA
  }

  /** `BOOKS[name]`: an unknown name is a KeyError. */
  function GetBookStructure(name: string): (r: Result<Layout, Failure>)
    ensures r.Ok? <==> IsBookName(name)
    ensures r.Err? ==> r.error == UnknownBook(name)
    ensures r.Ok? ==> |r.value| > 0
  {
    if name == VENTAS_CBTE then Ok(VentasCbte)
    else if name == VENTAS_ALICUOTA then Ok(VentasAlicuota)
    else if name == COMPRAS_CBTE then Ok(ComprasCbte)
    else if name == COMPRAS_ALICUOTA then Ok(ComprasAlicuota)
    else Err(UnknownBook(name))
  }

  /** Expected characters per line, without the terminator; 0 for an unknown name. */
  function GetBookLength(name: string): (r: nat)
    ensures r > 0 <==> IsBookName(name)
  {
    if name == VENTAS_CBTE then 266
    else if name == VENTAS_ALICUOTA then 62
    else if name == COMPRAS_CBTE then 325
    else if name == COMPRAS_ALICUOTA then 84
    else 0
  }

  /** Field numbers whose amounts are summed per line; empty for an unknown name. */
  function RetrieveKeysToSum(name: string): (r: seq<nat>)
    ensures |r| > 0 <==> IsBookName(name)
  {
    if name == VENTAS_CBTE then [10, 11, 12, 13, 14, 15, 16, 21]
    else if name == VENTAS_ALICUOTA then [4, 6]
    else if name == COMPRAS_CBTE then [10, 11, 12, 13, 14, 15, 16, 21, 22, 25]
    else if name == COMPRAS_ALICUOTA then [6, 8]
    else []
  }

  function Start(p: Positions): nat {
    match p
    case Span(s, _) => s
    case At(i) => i
  }

  /** Last position covered, inclusive. */
  function End(p: Positions): nat {
    match p
    case Span(_, e) => e
    case At(i) => i
  }

  /**
   * From the field at index `i` on, each field is numbered `i + 1`, starts
   * at `pos` where the previous one ended, covers at least one position,
   * declares the length its positions cover, and the last one ends just
   * before `width`.
   */
  predicate TilesAt(fields: Layout, i: nat, pos: nat, width: nat)
    requires i <= |fields|
    decreases |fields| - i
  {
    if i == |fields| then pos == width
    else
      var p := fields[i].positions;
      && fields[i].number == i + 1
      && Start(p) == pos
      && Start(p) <= End(p)
      && fields[i].length == End(p) - Start(p) + 1
      && TilesAt(fields, i + 1, End(p) + 1, width)
  }

  /** The layout covers positions 0 .. width-1 exactly once, fields numbered 1 .. n in order. */
  predicate Tiles(layout: Layout, width: nat) {
    TilesAt(layout, 0, 0, width)
  }

  /**
   * What tiling means field by field: numbers are 1 .. n, consecutive fields
   * are adjacent, each declared length is the span it covers, the first
   * field starts at 0 and the last ends at `width - 1`.
   */
  lemma {:induction false} TilesShape(fields: Layout, i: nat, pos: nat, width: nat)
    requires i <= |fields| && TilesAt(fields, i, pos, width)
    ensures forall k :: i <= k < |fields| ==> fields[k].number == k + 1
    ensures forall k :: i <= k < |fields| ==>
      && Start(fields[k].positions) <= End(fields[k].positions)
      && fields[k].length == End(fields[k].positions) - Start(fields[k].positions) + 1
    ensures forall k :: i <= k < |fields| - 1 ==> Start(fields[k + 1].positions) == End(fields[k].positions) + 1
    ensures i < |fields| ==> Start(fields[i].positions) == pos && End(fields[|fields| - 1].positions) + 1 == width
    ensures i == |fields| ==> pos == width
    decreases |fields| - i
  {
    if i < |fields| {
      TilesShape(fields, i + 1, End(fields[i].positions) + 1, width);
    }
  }

  /** The numbering half of tiling: field `k` sits at index `k - 1`. */
  lemma TilesNumbers(fields: Layout, width: nat)
    requires Tiles(fields, width)
    ensures forall k :: 0 <= k < |fields| ==> fields[k].number == k + 1
  {
    TilesShape(fields, 0, 0, width);
  }

  predicate HasObservation(f: FieldDef, text: string) {
    f.observations == Some(text)
  }

  /** Money fields are 15 characters wide and exchange-rate fields 10. */
  predicate WidthMatchesObservation(f: FieldDef) {
    && (HasObservation(f, MONEY_TEXT) ==> f.length == 15)
    && (HasObservation(f, RATE_TEXT) ==> f.length == 10)
  }

  predicate WidthsMatchFrom(fields: Layout, i: nat)
    requires i <= |fields|
    decreases |fields| - i
  {
    i == |fields| || (WidthMatchesObservation(fields[i]) && WidthsMatchFrom(fields, i + 1))
  }

  predicate AllWidthsMatch(fields: Layout) {
    forall k :: 0 <= k < |fields| ==> WidthMatchesObservation(fields[k])
  }

  lemma {:induction false} WidthsMatchFromAll(fields: Layout, i: nat)
    requires i <= |fields| && WidthsMatchFrom(fields, i)
    ensures forall k :: i <= k < |fields| ==> WidthMatchesObservation(fields[k])
    decreases |fields| - i
  {
    if i < |fields| {
      WidthsMatchFromAll(fields, i + 1);
    }
  }

  function FieldFrom(fields: Layout, i: nat, number: nat): Option<FieldDef>
    requires i <= |fields|
    decreases |fields| - i
  {
    if i == |fields| then None
    else if fields[i].number == number then Some(fields[i])
    else FieldFrom(fields, i + 1, number)
  }

  lemma {:induction false} FieldFromFound(fields: Layout, i: nat, number: nat)
    requires i <= |fields|
    ensures FieldFrom(fields, i, number).Some? ==>
      exists k :: i <= k < |fields| && fields[k] == FieldFrom(fields, i, number).value && fields[k].number == number
    ensures FieldFrom(fields, i, number).None? ==> forall k :: i <= k < |fields| ==> fields[k].number != number
    decreases |fields| - i
  {
    if i < |fields| && fields[i].number != number {
      FieldFromFound(fields, i + 1, number);
    }
  }

  /** The first field carrying `number`, as `field_structure[number]` finds it. */
  function FieldNumbered(fields: Layout, number: nat): (r: Option<FieldDef>)
    ensures r.Some? ==> r.value in fields && r.value.number == number
    ensures r.None? ==> forall k :: 0 <= k < |fields| ==> fields[k].number != number
  {
    FieldFromFound(fields, 0, number);
    FieldFrom(fields, 0, number)
  }

  /** In a layout numbered 1 .. n by position, field `number` is the one at index `number - 1`. */
  lemma {:induction false} NumberedLookup(fields: Layout, i: nat, number: nat)
    requires i <= |fields|
    requires forall k :: i <= k < |fields| ==> fields[k].number == k + 1
    requires i < number <= |fields|
    ensures FieldFrom(fields, i, number) == Some(fields[number - 1])
    decreases |fields| - i
  {
    if fields[i].number != number {
      NumberedLookup(fields, i + 1, number);
    }
  }

  /** In a tiling layout, field `number` is the one at index `number - 1`. */
  lemma TiledLookup(fields: Layout, width: nat, number: nat)
    requires Tiles(fields, width)
    requires 0 < number <= |fields|
    ensures FieldNumbered(fields, number) == Some(fields[number - 1])
  {
    TilesShape(fields, 0, 0, width);
    NumberedLookup(fields, 0, number);
  }

  predicate IsMoneyField(fields: Layout, number: nat) {
    var f := FieldNumbered(fields, number);
    f.Some? && HasObservation(f.value, MONEY_TEXT)
  }

  /** Every key indexes (1-based) a field of the layout declared as a 13+2 money amount. */
  predicate AllMoney(fields: Layout, keys: seq<nat>) {
    forall k :: k in keys ==> 0 < k <= |fields| && HasObservation(fields[k - 1], MONEY_TEXT)
  }

  /** In a tiling layout, money keys by position are money keys by field number. */
  lemma MoneyKeysByNumber(fields: Layout, width: nat, keys: seq<nat>)
    requires Tiles(fields, width) && AllMoney(fields, keys)
    ensures forall k :: k in keys ==> IsMoneyField(fields, k)
  {
    forall k | k in keys
      ensures IsMoneyField(fields, k)
    {
      TiledLookup(fields, width, k);
    }
  }

  predicate StrictlyIncreasing(keys: seq<nat>) {
    forall i, j :: 0 <= i < j < |keys| ==> keys[i] < keys[j]
  }

  /** Everything the rest of the engine relies on about one registered layout. */
  predicate WellFormedBook(layout: Layout, width: nat, keys: seq<nat>) {
    && Tiles(layout, width)
    && AllWidthsMatch(layout)
    && AllMoney(layout, keys)
    && StrictlyIncreasing(keys)
  }

  lemma VentasCbteTilesPart3()
    ensures TilesAt(VentasCbte, 15, 213, 266)
  {
    assert TilesAt(VentasCbte, 22, 266, 266);
    assert TilesAt(VentasCbte, 21, 258, 266);
    assert TilesAt(VentasCbte, 20, 243, 266);
    assert TilesAt(VentasCbte, 19, 242, 266);
    assert TilesAt(VentasCbte, 18, 241, 266);
    assert TilesAt(VentasCbte, 17, 231, 266);
    assert TilesAt(VentasCbte, 16, 228, 266);
  }

  lemma VentasCbteTilesPart2()
    ensures TilesAt(VentasCbte, 8, 108, 266)
  {
    VentasCbteTilesPart3();
    assert TilesAt(VentasCbte, 14, 198, 266);
    assert TilesAt(VentasCbte, 13, 183, 266);
    assert TilesAt(VentasCbte, 12, 168, 266);
    assert TilesAt(VentasCbte, 11, 153, 266);
    assert TilesAt(VentasCbte, 10, 138, 266);
    assert TilesAt(VentasCbte, 9, 123, 266);
  }

  /** The `ventas_cbte` layout has 22 fields and tiles 266 characters. */
  lemma VentasCbteTiles()
    ensures |VentasCbte| == 22 && Tiles(VentasCbte, 266)
  {
    VentasCbteTilesPart2();
    assert TilesAt(VentasCbte, 7, 78, 266);
    assert TilesAt(VentasCbte, 6, 58, 266);
    assert TilesAt(VentasCbte, 5, 56, 266);
    assert TilesAt(VentasCbte, 4, 36, 266);
    assert TilesAt(VentasCbte, 3, 16, 266);
    assert TilesAt(VentasCbte, 2, 11, 266);
    assert TilesAt(VentasCbte, 1, 8, 266);
  }

  lemma VentasCbteWidthsPart3()
    ensures WidthsMatchFrom(VentasCbte, 15)
  {
    assert WidthsMatchFrom(VentasCbte, 22);
    assert WidthsMatchFrom(VentasCbte, 21);
    assert WidthsMatchFrom(VentasCbte, 20);
    assert WidthsMatchFrom(VentasCbte, 19);
    assert WidthsMatchFrom(VentasCbte, 18);
    assert WidthsMatchFrom(VentasCbte, 17);
    assert WidthsMatchFrom(VentasCbte, 16);
  }

  lemma VentasCbteWidthsPart2()
    ensures WidthsMatchFrom(VentasCbte, 8)
  {
    VentasCbteWidthsPart3();
    assert WidthsMatchFrom(VentasCbte, 14);
    assert WidthsMatchFrom(VentasCbte, 13);
    assert WidthsMatchFrom(VentasCbte, 12);
    assert WidthsMatchFrom(VentasCbte, 11);
    assert WidthsMatchFrom(VentasCbte, 10);
    assert WidthsMatchFrom(VentasCbte, 9);
  }

  lemma VentasCbteWidths()
    ensures AllWidthsMatch(VentasCbte)
  {
    VentasCbteWidthsPart2();
    assert WidthsMatchFrom(VentasCbte, 7);
    assert WidthsMatchFrom(VentasCbte, 6);
    assert WidthsMatchFrom(VentasCbte, 5);
    assert WidthsMatchFrom(VentasCbte, 4);
    assert WidthsMatchFrom(VentasCbte, 3);
    assert WidthsMatchFrom(VentasCbte, 2);
    assert WidthsMatchFrom(VentasCbte, 1);
    WidthsMatchFromAll(VentasCbte, 0);
  }

  lemma VentasCbteMoney()
    ensures AllMoney(VentasCbte, [10, 11, 12, 13, 14, 15, 16, 21])
  {
    assert HasObservation(VentasCbte[9], MONEY_TEXT);
    assert HasObservation(VentasCbte[10], MONEY_TEXT);
    assert HasObservation(VentasCbte[11], MONEY_TEXT);
    assert HasObservation(VentasCbte[12], MONEY_TEXT);
    assert HasObservation(VentasCbte[13], MONEY_TEXT);
    assert HasObservation(VentasCbte[14], MONEY_TEXT);
    assert HasObservation(VentasCbte[15], MONEY_TEXT);
    assert HasObservation(VentasCbte[20], MONEY_TEXT);
  }

  lemma VentasCbteWellFormed()
    ensures |VentasCbte| == 22
    ensures WellFormedBook(VentasCbte, GetBookLength(VENTAS_CBTE), RetrieveKeysToSum(VENTAS_CBTE))
  {
    VentasCbteTiles();
    VentasCbteWidths();
    VentasCbteMoney();
  }

  /** The `ventas_alicuota` layout has 6 fields and tiles 62 characters. */
  lemma VentasAlicuotaTiles()
    ensures |VentasAlicuota| == 6 && Tiles(VentasAlicuota, 62)
  {
    assert TilesAt(VentasAlicuota, 6, 62, 62);
    assert TilesAt(VentasAlicuota, 5, 47, 62);
    assert TilesAt(VentasAlicuota, 4, 43, 62);
    assert TilesAt(VentasAlicuota, 3, 28, 62);
    assert TilesAt(VentasAlicuota, 2, 8, 62);
    assert TilesAt(VentasAlicuota, 1, 3, 62);
  }

  lemma VentasAlicuotaWidths()
    ensures AllWidthsMatch(VentasAlicuota)
  {
    assert WidthsMatchFrom(VentasAlicuota, 6);
    assert WidthsMatchFrom(VentasAlicuota, 5);
    assert WidthsMatchFrom(VentasAlicuota, 4);
    assert WidthsMatchFrom(VentasAlicuota, 3);
    assert WidthsMatchFrom(VentasAlicuota, 2);
    assert WidthsMatchFrom(VentasAlicuota, 1);
    WidthsMatchFromAll(VentasAlicuota, 0);
  }

  lemma VentasAlicuotaMoney()
    ensures AllMoney(VentasAlicuota, [4, 6])
  {
    assert HasObservation(VentasAlicuota[3], MONEY_TEXT);
    assert HasObservation(VentasAlicuota[5], MONEY_TEXT);
  }

  lemma VentasAlicuotaWellFormed()
    ensures |VentasAlicuota| == 6
    ensures WellFormedBook(VentasAlicuota, GetBookLength(VENTAS_ALICUOTA), RetrieveKeysToSum(VENTAS_ALICUOTA))
  {
    VentasAlicuotaTiles();
    VentasAlicuotaWidths();
    VentasAlicuotaMoney();
  }

  lemma ComprasCbteTilesPart3()
    ensures TilesAt(ComprasCbte, 16, 224, 325)
  {
    assert TilesAt(ComprasCbte, 25, 325, 325);
    assert TilesAt(ComprasCbte, 24, 310, 325);
    assert TilesAt(ComprasCbte, 23, 280, 325);
    assert TilesAt(ComprasCbte, 22, 269, 325);
    assert TilesAt(ComprasCbte, 21, 254, 325);
    assert TilesAt(ComprasCbte, 20, 239, 325);
    assert TilesAt(ComprasCbte, 19, 238, 325);
    assert TilesAt(ComprasCbte, 18, 237, 325);
    assert TilesAt(ComprasCbte, 17, 227, 325);
  }

  lemma ComprasCbteTilesPart2()
    ensures TilesAt(ComprasCbte, 8, 104, 325)
  {
    ComprasCbteTilesPart3();
    assert TilesAt(ComprasCbte, 15, 209, 325);
    assert TilesAt(ComprasCbte, 14, 194, 325);
    assert TilesAt(ComprasCbte, 13, 179, 325);
    assert TilesAt(ComprasCbte, 12, 164, 325);
    assert TilesAt(ComprasCbte, 11, 149, 325);
    assert TilesAt(ComprasCbte, 10, 134, 325);
    assert TilesAt(ComprasCbte, 9, 119, 325);
  }

  /** The `compras_cbte` layout has 25 fields and tiles 325 characters. */
  lemma ComprasCbteTiles()
    ensures |ComprasCbte| == 25 && Tiles(ComprasCbte, 325)
  {
    ComprasCbteTilesPart2();
    assert TilesAt(ComprasCbte, 7, 74, 325);
    assert TilesAt(ComprasCbte, 6, 54, 325);
    assert TilesAt(ComprasCbte, 5, 52, 325);
    assert TilesAt(ComprasCbte, 4, 36, 325);
    assert TilesAt(ComprasCbte, 3, 16, 325);
    assert TilesAt(ComprasCbte, 2, 11, 325);
    assert TilesAt(ComprasCbte, 1, 8, 325);
  }

  lemma ComprasCbteWidthsPart3()
    ensures WidthsMatchFrom(ComprasCbte, 16)
  {
    assert WidthsMatchFrom(ComprasCbte, 25);
    assert WidthsMatchFrom(ComprasCbte, 24);
    assert WidthsMatchFrom(ComprasCbte, 23);
    assert WidthsMatchFrom(ComprasCbte, 22);
    assert WidthsMatchFrom(ComprasCbte, 21);
    assert WidthsMatchFrom(ComprasCbte, 20);
    assert WidthsMatchFrom(ComprasCbte, 19);
    assert WidthsMatchFrom(ComprasCbte, 18);
    assert WidthsMatchFrom(ComprasCbte, 17);
  }

  lemma ComprasCbteWidthsPart2()
    ensures WidthsMatchFrom(ComprasCbte, 8)
  {
    ComprasCbteWidthsPart3();
    assert WidthsMatchFrom(ComprasCbte, 15);
    assert WidthsMatchFrom(ComprasCbte, 14);
    assert WidthsMatchFrom(ComprasCbte, 13);
    assert WidthsMatchFrom(ComprasCbte, 12);
    assert WidthsMatchFrom(ComprasCbte, 11);
    assert WidthsMatchFrom(ComprasCbte, 10);
    assert WidthsMatchFrom(ComprasCbte, 9);
  }

  lemma ComprasCbteWidths()
    ensures AllWidthsMatch(ComprasCbte)
  {
    ComprasCbteWidthsPart2();
    assert WidthsMatchFrom(ComprasCbte, 7);
    assert WidthsMatchFrom(ComprasCbte, 6);
    assert WidthsMatchFrom(ComprasCbte, 5);
    assert WidthsMatchFrom(ComprasCbte, 4);
    assert WidthsMatchFrom(ComprasCbte, 3);
    assert WidthsMatchFrom(ComprasCbte, 2);
    assert WidthsMatchFrom(ComprasCbte, 1);
    WidthsMatchFromAll(ComprasCbte, 0);
  }

  lemma ComprasCbteMoney()
    ensures AllMoney(ComprasCbte, [10, 11, 12, 13, 14, 15, 16, 21, 22, 25])
  {
    assert HasObservation(ComprasCbte[9], MONEY_TEXT);
    assert HasObservation(ComprasCbte[10], MONEY_TEXT);
    assert HasObservation(ComprasCbte[11], MONEY_TEXT);
    assert HasObservation(ComprasCbte[12], MONEY_TEXT);
    assert HasObservation(ComprasCbte[13], MONEY_TEXT);
    assert HasObservation(ComprasCbte[14], MONEY_TEXT);
    assert HasObservation(ComprasCbte[15], MONEY_TEXT);
    assert HasObservation(ComprasCbte[20], MONEY_TEXT);
    assert HasObservation(ComprasCbte[21], MONEY_TEXT);
    assert HasObservation(ComprasCbte[24], MONEY_TEXT);
  }

  lemma ComprasCbteWellFormed()
    ensures |ComprasCbte| == 25
    ensures WellFormedBook(ComprasCbte, GetBookLength(COMPRAS_CBTE), RetrieveKeysToSum(COMPRAS_CBTE))
  {
    ComprasCbteTiles();
    ComprasCbteWidths();
    ComprasCbteMoney();
  }

  /** The `compras_alicuota` layout has 8 fields and tiles 84 characters. */
  lemma ComprasAlicuotaTiles()
    ensures |ComprasAlicuota| == 8 && Tiles(ComprasAlicuota, 84)
  {
    assert TilesAt(ComprasAlicuota, 8, 84, 84);
    assert TilesAt(ComprasAlicuota, 7, 69, 84);
    assert TilesAt(ComprasAlicuota, 6, 65, 84);
    assert TilesAt(ComprasAlicuota, 5, 50, 84);
    assert TilesAt(ComprasAlicuota, 4, 30, 84);
    assert TilesAt(ComprasAlicuota, 3, 28, 84);
    assert TilesAt(ComprasAlicuota, 2, 8, 84);
    assert TilesAt(ComprasAlicuota, 1, 3, 84);
  }

  lemma ComprasAlicuotaWidths()
    ensures AllWidthsMatch(ComprasAlicuota)
  {
    assert WidthsMatchFrom(ComprasAlicuota, 8);
    assert WidthsMatchFrom(ComprasAlicuota, 7);
    assert WidthsMatchFrom(ComprasAlicuota, 6);
    assert WidthsMatchFrom(ComprasAlicuota, 5);
    assert WidthsMatchFrom(ComprasAlicuota, 4);
    assert WidthsMatchFrom(ComprasAlicuota, 3);
    assert WidthsMatchFrom(ComprasAlicuota, 2);
    assert WidthsMatchFrom(ComprasAlicuota, 1);
    WidthsMatchFromAll(ComprasAlicuota, 0);
  }

  lemma ComprasAlicuotaMoney()
    ensures AllMoney(ComprasAlicuota, [6, 8])
  {
    assert HasObservation(ComprasAlicuota[5], MONEY_TEXT);
    assert HasObservation(ComprasAlicuota[7], MONEY_TEXT);
  }

  lemma ComprasAlicuotaWellFormed()
    ensures |ComprasAlicuota| == 8
    ensures WellFormedBook(ComprasAlicuota, GetBookLength(COMPRAS_ALICUOTA), RetrieveKeysToSum(COMPRAS_ALICUOTA))
  {
    ComprasAlicuotaTiles();
    ComprasAlicuotaWidths();
    ComprasAlicuotaMoney();
  }

  /**
   * Each registered layout tiles its expected line width exactly, declares
   * widths that match its observations, and lists only money fields to sum,
   * in strictly increasing order; the sum keys are money fields by number.
   */
  lemma RegistryWellFormed(name: string)
    requires IsBookName(name)
    ensures GetBookStructure(name).Ok?
    ensures WellFormedBook(GetBookStructure(name).value, GetBookLength(name), RetrieveKeysToSum(name))
    ensures forall k :: k in RetrieveKeysToSum(name) ==> IsMoneyField(GetBookStructure(name).value, k)
  {
    if name == VENTAS_CBTE {
      VentasCbteWellFormed();
    } else if name == VENTAS_ALICUOTA {
      VentasAlicuotaWellFormed();
    } else if name == COMPRAS_CBTE {
      ComprasCbteWellFormed();
    } else {
      ComprasAlicuotaWellFormed();
    }
    MoneyKeysByNumber(GetBookStructure(name).value, GetBookLength(name), RetrieveKeysToSum(name));
  }

  /**
   * The declared operation total, field 9 of both invoice books, is a money
   * field but never one of the summed fields.
   */
  lemma TotalFieldNotSummed()
    ensures TOTAL_FIELD !in RetrieveKeysToSum(VENTAS_CBTE)
    ensures TOTAL_FIELD !in RetrieveKeysToSum(COMPRAS_CBTE)
    ensures VentasCbte[TOTAL_FIELD - 1].number == TOTAL_FIELD && HasObservation(VentasCbte[TOTAL_FIELD - 1], MONEY_TEXT)
    ensures ComprasCbte[TOTAL_FIELD - 1].number == TOTAL_FIELD && HasObservation(ComprasCbte[TOTAL_FIELD - 1], MONEY_TEXT)
  {
  }

  /**
   * The purchase breakdown book spells its tax-ID observation without "la",
   * unlike the two invoice books.
   */
  lemma ZeroPadTexts()
    ensures ComprasAlicuota[4].number == 5 && HasObservation(ComprasAlicuota[4], ZERO_PAD_SHORT_TEXT)
    ensures VentasCbte[DOCUMENT_FIELD - 1].number == DOCUMENT_FIELD && HasObservation(VentasCbte[DOCUMENT_FIELD - 1], ZERO_PAD_TEXT)
    ensures ComprasCbte[DOCUMENT_FIELD - 1].number == DOCUMENT_FIELD && HasObservation(ComprasCbte[DOCUMENT_FIELD - 1], ZERO_PAD_TEXT)
    ensures ZERO_PAD_TEXT != ZERO_PAD_SHORT_TEXT
  {
    assert ZERO_PAD_TEXT[22] != ZERO_PAD_SHORT_TEXT[22];
  }
}
