/**
 * The association form of components/association-form.tsx: the offered
 * options, `validarFormulario`, the submit handler and the handlers that
 * clear errors when a selection changes.
 */
module AssociationForm {
  import opened Wrappers
  import opened Types
  import opened Lists
  import D = Dates
  import C = Constants

  const AlreadyExists: string := "Esta asociación ya existe"

  /** The keys of the `errores` record. */
  datatype ErrorKey = SocioKey | TemporadaKey | General

  /**
   * The `errores` record. A key can be present with `""`: the change
   * handlers blank entries rather than removing them.
   */
  type Errors = map<ErrorKey, string>

  /** `errores[k]` is truthy: the form shows that error. */
  predicate Shows(e: Errors, k: ErrorKey) {
    k in e && e[k] != ""
  }

  datatype Form = Form(socio: string, temporada: string, errors: Errors)

  function Init(): (f: Form)
    ensures f.socio == "" && f.temporada == "" && f.errors == map[]
  {
    Form("", "", map[])
  }

  // ----- Options -----

  /** `sociosActivos`. */
  function ActiveSocios(socios: seq<Socio>): (r: seq<Socio>)
    ensures SubsequenceOf(r, socios)
    ensures forall s :: s in r <==> s in socios && s.estado == Activo
    ensures forall s :: multiset(r)[s] == if s.estado == Activo then multiset(socios)[s] else 0
  {
    Filter(socios, (s: Socio) => s.estado == Activo)
  }

  /** `temporadasDisponibles`: the seasons whose end date is not past. */
  function AvailableSeasons(ts: seq<Temporada>, today: D.Date): (r: seq<Temporada>)
    ensures SubsequenceOf(r, ts)
    ensures forall t :: t in r <==> t in ts && !D.IsDatePast(t.fechaFin, today)
    ensures forall t :: multiset(r)[t] == if D.IsDatePast(t.fechaFin, today) then 0 else multiset(ts)[t]
  {
    Filter(ts, (t: Temporada) => !D.IsDatePast(t.fechaFin, today))
  }

  /** A current season is always offered. */
  lemma CurrentSeasonOffered(ts: seq<Temporada>, today: D.Date, t: Temporada)
    requires t in ts && D.IsDateRangeActive(t.fechaInicio, t.fechaFin, today)
    ensures t in AvailableSeasons(ts, today)
  {
    D.RangeActiveFacts(t.fechaInicio, t.fechaFin, today);
  }

  /** The submit button is disabled when either list of options is empty. */
  predicate SubmitDisabled(socios: seq<Socio>, ts: seq<Temporada>, today: D.Date) {
    ActiveSocios(socios) == [] || AvailableSeasons(ts, today) == []
  }

  lemma SubmitDisabledIff(socios: seq<Socio>, ts: seq<Temporada>, today: D.Date)
    ensures SubmitDisabled(socios, ts, today) <==>
      (forall s :: s in socios ==> s.estado != Activo) || (forall t :: t in ts ==> D.IsDatePast(t.fechaFin, today))
  {
    var a, b := ActiveSocios(socios), AvailableSeasons(ts, today);
    if a != [] {
      assert a[0] in a;
    }
    if b != [] {
      assert b[0] in b;
    }
  }

  // ----- Validation -----

  /** An active association for the pair already exists. */
  predicate Duplicate(existing: seq<Asociacion>, socio: string, temporada: string) {
    exists a :: a in existing && a.idSocio == socio && a.idTemporada == temporada && a.estado == Activa
  }

  /** `validarFormulario`'s fresh error record. */
  function Validate(socio: string, temporada: string, existing: seq<Asociacion>): (e: Errors)
    ensures SocioKey in e <==> socio == ""
    ensures TemporadaKey in e <==> temporada == ""
    ensures General in e <==> socio != "" && temporada != "" && Duplicate(existing, socio, temporada)
    ensures SocioKey in e ==> e[SocioKey] == C.CampoRequerido
    ensures TemporadaKey in e ==> e[TemporadaKey] == C.CampoRequerido
    ensures General in e ==> e[General] == AlreadyExists
  {
    var dup := Find(existing, (a: Asociacion) => a.idSocio == socio && a.idTemporada == temporada && a.estado == Activa);
    var e1: Errors := if socio == "" then map[SocioKey := C.CampoRequerido] else map[];
    var e2 := if temporada == "" then e1[TemporadaKey := C.CampoRequerido] else e1;
    if socio != "" && temporada != "" && dup.Some? then e2[General := AlreadyExists] else e2
  }

  /** What a submit does: the new form and the payload passed to `onSubmit`, if any. */
  datatype Submitted = Submitted(form: Form, payload: Option<(string, string)>)

  /** `handleSubmit`: validates, replaces the error record, and submits only a valid form. */
  function Submit(f: Form, existing: seq<Asociacion>): (r: Submitted)
    ensures r.form == f.(errors := Validate(f.socio, f.temporada, existing))
    ensures r.payload.Some? <==> f.socio != "" && f.temporada != "" && !Duplicate(existing, f.socio, f.temporada)
    ensures r.payload.Some? ==> r.payload.value == (f.socio, f.temporada)
    ensures r.payload.Some? <==> r.form.errors == map[]
  {
    var e := Validate(f.socio, f.temporada, existing);
    if e == map[] then Submitted(f.(errors := e), Some((f.socio, f.temporada)))
    else Submitted(f.(errors := e), None)
  }

  /** An inactive association never blocks a new one. */
  lemma InactiveDoesNotBlock(existing: seq<Asociacion>, socio: string, temporada: string)
    requires socio != "" && temporada != ""
    requires forall a :: a in existing && a.idSocio == socio && a.idTemporada == temporada ==> a.estado == Inactiva
    ensures Submit(Form(socio, temporada, map[]), existing).payload == Some((socio, temporada))
  {
  }

  // ----- Change handlers -----

  /** `handleCambioSocio`: blanks the socio and general errors, only when one of them shows. */
  function ChangeSocio(f: Form, value: string): (r: Form)
    ensures r.socio == value && r.temporada == f.temporada
    ensures !Shows(r.errors, SocioKey) && !Shows(r.errors, General)
    ensures Shows(r.errors, TemporadaKey) <==> Shows(f.errors, TemporadaKey)
    ensures TemporadaKey in f.errors ==> TemporadaKey in r.errors && r.errors[TemporadaKey] == f.errors[TemporadaKey]
  {
    var e := if Shows(f.errors, SocioKey) || Shows(f.errors, General)
      then f.errors[SocioKey := ""][General := ""] else f.errors;
    Form(value, f.temporada, e)
  }

  /** `handleCambioTemporada`: blanks the season and general errors, only when one of them shows. */
  function ChangeTemporada(f: Form, value: string): (r: Form)
    ensures r.temporada == value && r.socio == f.socio
    ensures !Shows(r.errors, TemporadaKey) && !Shows(r.errors, General)
    ensures Shows(r.errors, SocioKey) <==> Shows(f.errors, SocioKey)
    ensures SocioKey in f.errors ==> SocioKey in r.errors && r.errors[SocioKey] == f.errors[SocioKey]
  {
    var e := if Shows(f.errors, TemporadaKey) || Shows(f.errors, General)
      then f.errors[TemporadaKey := ""][General := ""] else f.errors;
    Form(f.socio, value, e)
  }

  /** Blanked errors do not survive into the next submit: validation rebuilds the record from scratch. */
  lemma SubmitIgnoresOldErrors(f: Form, g: Form, existing: seq<Asociacion>)
    requires f.socio == g.socio && f.temporada == g.temporada
    ensures Submit(f, existing).payload == Submit(g, existing).payload
    ensures Submit(f, existing).form.errors == Submit(g, existing).form.errors
  {
  }
}
