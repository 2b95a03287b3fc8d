/**
 * The season form schema of lib/schemas/temporada.schema.ts: field rules,
 * the end-after-start refinement attached to `fechaFin`, and the
 * normalised output.
 */
module TemporadaSchema {
  import opened Wrappers
  import opened Text
  import Dates
  import C = Constants

  datatype Input = Input(nombre: string, fechaInicio: string, fechaFin: string, descripcion: Option<string>)

  datatype Output = Output(nombre: string, fechaInicio: string, fechaFin: string, descripcion: Option<string>)

  datatype Field = Nombre | FechaInicio | FechaFin | Descripcion

  /** A rejected field and the message the form shows for it: the first of its checks that fails. */
  datatype Issue = Issue(field: Field, message: string)

  /** `min(1)` and then a parseable date. */
  function DateIssue(v: string, message: string): (r: Option<string>)
    ensures r.None? <==> Dates.ParseDateSafe(v).Some?
    ensures r.Some? ==> r.value == message
  {
    if |v| < 1 then Some(message)
    else if Dates.ParseDateSafe(v).None? then Some(message)
    else None
  }

  /** The object-level refinement: the end is strictly after the start. An unparseable date fails it. */
  predicate InOrder(i: Input) {
    match (Dates.ParseDateSafe(i.fechaInicio), Dates.ParseDateSafe(i.fechaFin))
    case (Some(s), Some(e)) => Dates.Before(s, e)
    case _ => false
  }

  /** The message a field is reported with, if any. */
  function FieldMessage(i: Input, f: Field): Option<string> {
    match f
    case Nombre => if |i.nombre| < 1 then Some(C.NombreTemporadaInvalido) else None
    case FechaInicio => DateIssue(i.fechaInicio, C.FechaInicioInvalida)
    case FechaFin => FinIssue(i)
    case Descripcion =>
      if i.descripcion.Some? && Utf16Length(i.descripcion.value) > 100 then Some(C.LongitudDescripcionInvalida) else None
  }

  function Issues(i: Input): (r: seq<Issue>)
    ensures forall x :: x in r <==> FieldMessage(i, x.field) == Some(x.message)
    ensures Issue(Nombre, C.NombreTemporadaInvalido) in r <==> i.nombre == ""
    ensures Issue(FechaInicio, C.FechaInicioInvalida) in r <==> Dates.ParseDateSafe(i.fechaInicio).None?
    ensures Issue(FechaFin, C.FechaFinInvalida) in r <==> Dates.ParseDateSafe(i.fechaFin).None?
    ensures Issue(FechaFin, C.OrdenFechasInvalido) in r <==> Dates.ParseDateSafe(i.fechaFin).Some? && !InOrder(i)
    ensures Issue(Descripcion, C.LongitudDescripcionInvalida) in r <==>
      i.descripcion.Some? && Utf16Length(i.descripcion.value) > 100
    ensures forall x :: x in r ==>
      || x == Issue(Nombre, C.NombreTemporadaInvalido)
      || x == Issue(FechaInicio, C.FechaInicioInvalida)
      || x == Issue(FechaFin, C.FechaFinInvalida)
      || x == Issue(FechaFin, C.OrdenFechasInvalido)
      || x == Issue(Descripcion, C.LongitudDescripcionInvalida)
  {
    Reported(Nombre, FieldMessage(i, Nombre))
    + Reported(FechaInicio, FieldMessage(i, FechaInicio))
    + Reported(FechaFin, FieldMessage(i, FechaFin))
    + Reported(Descripcion, FieldMessage(i, Descripcion))
  }

  /** The message on `fechaFin`: the field's own check first, and the order refinement only when it passed. */
  function FinIssue(i: Input): (r: Option<string>)
    ensures r.None? || r == Some(C.FechaFinInvalida) || r == Some(C.OrdenFechasInvalido)
    ensures r == Some(C.FechaFinInvalida) <==> Dates.ParseDateSafe(i.fechaFin).None?
    ensures r == Some(C.OrdenFechasInvalido) <==> Dates.ParseDateSafe(i.fechaFin).Some? && !InOrder(i)
  {
    match DateIssue(i.fechaFin, C.FechaFinInvalida)
    case Some(m) => Some(m)
    case None => if InOrder(i) then None else Some(C.OrdenFechasInvalido)
  }

  /** The issue of one field, when its check produced a message. */
  function Reported(f: Field, m: Option<string>): (r: seq<Issue>)
    ensures forall x :: x in r <==> x.field == f && m == Some(x.message)
  {
    if m.Some? then [Issue(f, m.value)] else []
  }

  /** Every rule of the schema. */
  predicate Accepted(i: Input) {
    && i.nombre != ""
    && (i.descripcion.None? || Utf16Length(i.descripcion.value) <= 100)
    && InOrder(i)
  }

  /** `temporadaSchema.safeParse`. */
  function Parse(i: Input): (r: Result<Output, seq<Issue>>)
    ensures r.Ok? <==> Accepted(i)
    ensures r.Err? ==> r.error == Issues(i) && r.error != []
    ensures r.Ok? ==>
      && r.value.nombre == Trim(i.nombre)
      && r.value.fechaInicio == i.fechaInicio && r.value.fechaFin == i.fechaFin
      && (r.value.descripcion.None? <==> i.descripcion.None? || Trim(i.descripcion.value) == "")
      && (r.value.descripcion.Some? ==> r.value.descripcion.value == Trim(i.descripcion.value))
  {
    var issues := Issues(i);
    if issues != [] then Err(issues)
    else
      Ok(Output(Trim(i.nombre), i.fechaInicio, i.fechaFin,
                if i.descripcion.Some? && Trim(i.descripcion.value) != "" then Some(Trim(i.descripcion.value)) else None))
  }

  /** A season that starts and ends on the same day is rejected, and the message goes to `fechaFin`. */
  lemma SameDayRejected(i: Input)
    requires Dates.ParseDateSafe(i.fechaInicio).Some? && i.fechaFin == i.fechaInicio
    ensures Parse(i).Err?
    ensures Issue(FechaFin, C.OrdenFechasInvalido) in Parse(i).error
  {
  }

  /**
   * An accepted season's dates are well-formed and in calendar order, so
   * they are also in string order: the order the rest of the dashboard
   * compares them in.
   */
  lemma AcceptedDatesInStringOrder(i: Input)
    requires Parse(i).Ok?
    ensures LexLess(i.fechaInicio, i.fechaFin)
  {
    var s, e := Dates.ParseDateSafe(i.fechaInicio).value, Dates.ParseDateSafe(i.fechaFin).value;
    Dates.FormatParse(i.fechaInicio);
    Dates.FormatParse(i.fechaFin);
    Dates.FormatOrder(s, e);
  }

  /**
   * The description limit counts UTF-16 code units: sixty characters from
   * outside the Basic Multilingual Plane, such as emoji, are too long.
   */
  lemma AstralDescriptionTooLong(i: Input, d: string)
    requires i.descripcion == Some(d) && |d| == 60
    requires forall k :: 0 <= k < |d| ==> d[k] as int >= 0x1_0000
    ensures Parse(i).Err?
    ensures Issue(Descripcion, C.LongitudDescripcionInvalida) in Parse(i).error
  {
    Text.Utf16LengthBounds(d);
  }

  /** The description limit counts the untrimmed text: padding can push a short description over it. */
  lemma DescriptionLimitBeforeTrim(i: Input)
    requires Accepted(i.(descripcion := None))
    requires i.descripcion.Some? && |i.descripcion.value| == 101 && Trim(i.descripcion.value) == "x"
    ensures Parse(i).Err?
  {
  }
}
