/**
 * The member form schema of lib/schemas/socio.schema.ts: which inputs it
 * accepts, the message shown on each rejected field, and the normalised
 * record it outputs. The birth date is a `YYYY-MM-DD` string that
 * `new Date(val)` reads as UTC midnight; the clock (today's local date and
 * the local offset from UTC) is a parameter.
 */
module SocioSchema {
  import opened Wrappers
  import opened Text
  import opened Types
  import Dates
  import C = Constants

  /** The raw form values; an absent optional field is `None`. */
  datatype Input = Input(
    dni: string,
    nombre: string,
    apellido: string,
    direccion: string,
    email: Option<string>,
    telefono: Option<string>,
    fechaNacimiento: string,
    genero: string,
    estado: string,
    fotoUrl: Option<string>)

  /** The parsed record. */
  datatype Output = Output(
    dni: string,
    nombre: string,
    apellido: string,
    direccion: string,
    email: Option<string>,
    telefono: Option<string>,
    fechaNacimiento: string,
    genero: Genero,
    estado: EstadoSocio,
    fotoUrl: Option<string>)

  datatype Field = Dni | Nombre | Apellido | Direccion | Email | FechaNacimiento | GeneroField | EstadoField

  /** A rejected field and the message the form shows for it: the first of its checks that fails. */
  datatype Issue = Issue(field: Field, message: string)

  // ----- dni -----

  /** `min(1)`, then `/^\d{8}$/`, then `length(8)`. */
  function DniIssue(dni: string): (r: Option<string>)
    ensures r.None? <==> |dni| == C.DniMaxLength && AllDigits(dni)
    ensures dni == "" ==> r == Some(C.CampoRequerido)
    ensures dni != "" && r.Some? ==> r == Some(C.DniInvalido)
  {
    if |dni| < 1 then Some(C.CampoRequerido)
    else if !(|dni| == 8 && AllDigits(dni)) then Some(C.DniInvalido)
    else if |dni| != C.DniMaxLength then Some(C.DniInvalido)
    else None
  }

  // ----- email -----

  /** No whitespace (`\s`) and no `@`: the class `[^\s@]`. */
  predicate Plain(s: string) {
    forall i :: 0 <= i < |s| ==> !IsSpace(s[i]) && s[i] != '@'
  }

  /** `[^\s@]+\.[^\s@]+` on the part after the `@`. */
  predicate DomainMatches(d: string) {
    Plain(d) && exists j :: 0 < j < |d| - 1 && d[j] == '.'
  }

  /** `/^[^\s@]+@[^\s@]+\.[^\s@]+$/`. */
  predicate EmailMatches(s: string) {
    exists a :: 0 < a < |s| && s[a] == '@' && Plain(s[..a]) && DomainMatches(s[a + 1..])
  }

  /** The position of the first `c` in `s`. */
  function IndexOf(s: string, c: char): (r: Option<nat>)
    ensures r.Some? ==> r.value < |s| && s[r.value] == c && c !in s[..r.value]
    ensures r.None? ==> c !in s
    decreases |s|
  {
    if s == [] then None
    else if s[0] == c then Some(0)
    else
      match IndexOf(s[1..], c)
      case None => None
      case Some(i) =>
        assert s[..i + 1] == [s[0]] + s[1..][..i];
        Some(i + 1)
  }

  /** The email check as a scan: split at the first `@`, then test both sides. */
  predicate EmailScan(s: string) {
    match IndexOf(s, '@')
    case None => false
    case Some(a) => a > 0 && Plain(s[..a]) && DomainMatches(s[a + 1..])
  }

  /** The scan accepts exactly the strings the regular expression matches. */
  lemma EmailScanIff(s: string)
    ensures EmailScan(s) <==> EmailMatches(s)
  {
    if EmailMatches(s) {
      var a :| 0 < a < |s| && s[a] == '@' && Plain(s[..a]) && DomainMatches(s[a + 1..]);
      FirstAt(s, a);
    }
    if EmailScan(s) {
      var a := IndexOf(s, '@').value;
      assert 0 < a < |s| && s[a] == '@' && Plain(s[..a]) && DomainMatches(s[a + 1..]);
    }
  }

  /** An `@` with no `@` before it is the first one. */
  lemma FirstAt(s: string, a: nat)
    requires a < |s| && s[a] == '@' && Plain(s[..a])
    ensures IndexOf(s, '@') == Some(a)
  {
    var r := IndexOf(s, '@');
    assert r.Some? by {
      assert s[a] in s;
    }
  }

  /** An absent or blank email passes; anything else must match once trimmed. */
  function EmailIssue(email: Option<string>): (r: Option<string>)
    ensures r.None? <==> email.None? || Trim(email.value) == "" || EmailMatches(Trim(email.value))
    ensures r.Some? ==> r.value == C.EmailInvalido
  {
    if email.None? || Trim(email.value) == "" then None
    else if EmailMatches(Trim(email.value)) then None
    else Some(C.EmailInvalido)
  }

  /** `val && val.trim() !== "" ? val.trim() : undefined`, the output of email and telefono. */
  function OptionalTrimmed(v: Option<string>): (r: Option<string>)
    ensures r.None? <==> v.None? || Trim(v.value) == ""
    ensures r.Some? ==> r.value == Trim(v.value) && r.value != ""
  {
    if v.Some? && Trim(v.value) != "" then Some(Trim(v.value)) else None
  }

  // ----- fechaNacimiento -----

  /** What the schema reads from `new Date()`: today's local date and the local clock's offset from UTC. */
  datatype Clock = Clock(today: Dates.Day, offset: Dates.UtcOffset)

  /**
   * The local calendar day that the local getters (`getFullYear`,
   * `getMonth`, `getDate`) read from the UTC midnight opening `d`: the day
   * before on a clock behind UTC.
   */
  function LocalBirthDay(d: Dates.Date, offset: Dates.UtcOffset): (r: Dates.Date)
    requires Dates.Valid(d)
    ensures offset >= 0 ==> r == d
    ensures offset < 0 ==> Dates.Before(r, d) && forall x :: Dates.Valid(x) && Dates.Before(x, d) ==> Dates.AtOrBefore(x, r)
  {
    if offset < 0 then Dates.PrevDay(d) else d
  }

  /** Completed years: the year difference, less one while this year's birthday is still ahead. */
  function Age(birth: Dates.Date, today: Dates.Date): int {
    var age := today.year - birth.year;
    var monthDiff := today.month - birth.month;
    if monthDiff < 0 || (monthDiff == 0 && today.day < birth.day) then age - 1 else age
  }

  /** `Age` counts the anniversaries reached: the `Age`-th has come, the next has not. */
  lemma AgeIsCompletedYears(birth: Dates.Date, today: Dates.Date)
    ensures var n := Age(birth, today);
      && Dates.AtOrBefore(Dates.Date(birth.year + n, birth.month, birth.day), today)
      && !Dates.AtOrBefore(Dates.Date(birth.year + n + 1, birth.month, birth.day), today)
  {
  }

  /** A birth date that is not after today has a non-negative age. */
  lemma AgeNonNegative(birth: Dates.Date, today: Dates.Date)
    requires Dates.AtOrBefore(birth, today)
    ensures Age(birth, today) >= 0
  {
  }

  /**
   * `min(1)`, a date, not after today's local midnight, at most 120 completed
   * years by the local getters. In calendar days: a clock ahead of UTC
   * rejects a birth date of today, and a clock behind UTC counts the age
   * from the day before the birth date.
   */
  function BirthIssue(v: string, now: Clock): (r: Option<string>)
    ensures r.None? <==>
      && Dates.ParseDateSafe(v).Some?
      && (if now.offset > 0 then Dates.Before(Dates.ParseDateSafe(v).value, now.today)
          else Dates.AtOrBefore(Dates.ParseDateSafe(v).value, now.today))
      && Age(LocalBirthDay(Dates.ParseDateSafe(v).value, now.offset), now.today) <= C.MaxAge
    ensures v == "" ==> r == Some(C.CampoRequerido)
    ensures v != "" && Dates.ParseDateSafe(v).None? ==> r == Some("Fecha inválida")
  {
    if |v| < 1 then Some(C.CampoRequerido)
    else match Dates.UtcMidnightOf(v, now.offset)
      case None => Some("Fecha inválida")
      case Some(birth) =>
        if Dates.InstantBefore(Dates.Instant(now.today, 0), birth) then Some(C.FechaNacimientoInvalida)
        else if Age(birth.date, now.today) > C.MaxAge then Some(C.EdadFueraDeRango)
        else None
  }

  /** On a clock at UTC the birth rule is the calendar rule: not after today and at most 120 completed years. */
  lemma BirthIssueAtUtc(v: string, today: Dates.Day)
    ensures BirthIssue(v, Clock(today, 0)).None? <==>
      && Dates.ParseDateSafe(v).Some?
      && Dates.AtOrBefore(Dates.ParseDateSafe(v).value, today)
      && Age(Dates.ParseDateSafe(v).value, today) <= C.MaxAge
  {
  }

  /** On a clock ahead of UTC a birth date of today is taken for a future one. */
  lemma EastOfUtcRejectsToday(v: string, now: Clock)
    requires now.offset > 0 && Dates.ParseDateSafe(v) == Some(now.today)
    ensures BirthIssue(v, now) == Some(C.FechaNacimientoInvalida)
  {
  }

  /**
   * On a clock three hours behind UTC the age is counted from the day
   * before the birth date: on 2025-06-14, someone born on 1904-06-15 is
   * taken to be 121, and rejected, though only 120 years have been completed.
   */
  lemma WestOfUtcCountsFromDayBefore()
    ensures var v, today := Dates.Format(Dates.Date(1904, 6, 15)), Dates.Date(2025, 6, 14);
      && Age(Dates.Date(1904, 6, 15), today) == 120
      && BirthIssue(v, Clock(today, -180)) == Some(C.EdadFueraDeRango)
      && BirthIssue(v, Clock(today, 0)).None?
  {
    Dates.ParseFormat(Dates.Date(1904, 6, 15));
  }

  // ----- enumerations -----

  function GeneroOf(s: string): (r: Option<Genero>)
    ensures r.Some? <==> s == "MASCULINO" || s == "FEMENINO"
    ensures r == Some(Masculino) <==> s == "MASCULINO"
  {
    if s == "MASCULINO" then Some(Masculino) else if s == "FEMENINO" then Some(Femenino) else None
  }

  function EstadoOf(s: string): (r: Option<EstadoSocio>)
    ensures r.Some? <==> s == "ACTIVO" || s == "INACTIVO"
    ensures r == Some(Activo) <==> s == "ACTIVO"
  {
    if s == "ACTIVO" then Some(Activo) else if s == "INACTIVO" then Some(Inactivo) else None
  }

  // ----- the whole object -----

  /** `min(1)` on the raw value, so a whitespace-only value passes. */
  function RequiredIssue(v: string): (r: Option<string>)
    ensures r.None? <==> v != ""
    ensures r.Some? ==> r.value == C.CampoRequerido
  {
    if |v| < 1 then Some(C.CampoRequerido) else None
  }

  /** The message of the first failing check of one field, if any. */
  function IssueFor(i: Input, now: Clock, f: Field): Option<string> {
    match f
    case Dni => DniIssue(i.dni)
    case Nombre => RequiredIssue(i.nombre)
    case Apellido => RequiredIssue(i.apellido)
    case Direccion => RequiredIssue(i.direccion)
    case Email => EmailIssue(i.email)
    case FechaNacimiento => BirthIssue(i.fechaNacimiento, now)
    case GeneroField => if GeneroOf(i.genero).None? then Some(C.CampoRequerido) else None
    case EstadoField => if EstadoOf(i.estado).None? then Some(C.CampoRequerido) else None
  }

  const FieldOrder: seq<Field> :=
    [Dni, Nombre, Apellido, Direccion, Email, FechaNacimiento, GeneroField, EstadoField]

  function IssuesOver(i: Input, now: Clock, fs: seq<Field>): seq<Issue>
    decreases |fs|
  {
    if fs == [] then []
    else
      var m := IssueFor(i, now, fs[0]);
      (if m.Some? then [Issue(fs[0], m.value)] else []) + IssuesOver(i, now, fs[1..])
  }

  /**
   * The rejected fields, in declaration order: each field whose first failing
   * check gives a message is reported with it, and nothing is reported
   * exactly when every rule holds.
   */
  function Issues(i: Input, now: Clock): (r: seq<Issue>)
    ensures forall x :: x in r <==> IssueFor(i, now, x.field) == Some(x.message)
    ensures r == [] <==> Accepted(i, now)
  {
    ReportedFields(i, now);
    NoIssuesIffAccepted(i, now);
    IssuesOver(i, now, FieldOrder)
  }

  /** A field is reported, with its first failing check's message, exactly when that check fails. */
  lemma {:induction false} IssuesOverIff(i: Input, now: Clock, fs: seq<Field>, f: Field, m: string)
    ensures Issue(f, m) in IssuesOver(i, now, fs) <==> f in fs && IssueFor(i, now, f) == Some(m)
    decreases |fs|
  {
    if fs != [] {
      IssuesOverIff(i, now, fs[1..], f, m);
      assert f in fs <==> f == fs[0] || f in fs[1..];
    }
  }

  /** Over the whole schema, a field is reported with a message exactly when its checks give it. */
  lemma ReportedFields(i: Input, now: Clock)
    ensures forall x :: x in IssuesOver(i, now, FieldOrder) <==> IssueFor(i, now, x.field) == Some(x.message)
  {
    forall x: Issue ensures x in IssuesOver(i, now, FieldOrder) <==> IssueFor(i, now, x.field) == Some(x.message) {
      IssuesOverIff(i, now, FieldOrder, x.field, x.message);
      FieldOrderComplete(x.field);
    }
  }

  /** Every rule of the schema, stated field by field. */
  predicate Accepted(i: Input, now: Clock) {
    && |i.dni| == 8 && AllDigits(i.dni)
    && i.nombre != "" && i.apellido != "" && i.direccion != ""
    && (i.email.None? || Trim(i.email.value) == "" || EmailMatches(Trim(i.email.value)))
    && Dates.ParseDateSafe(i.fechaNacimiento).Some?
    && (if now.offset > 0 then Dates.Before(Dates.ParseDateSafe(i.fechaNacimiento).value, now.today)
        else Dates.AtOrBefore(Dates.ParseDateSafe(i.fechaNacimiento).value, now.today))
    && Age(LocalBirthDay(Dates.ParseDateSafe(i.fechaNacimiento).value, now.offset), now.today) <= C.MaxAge
    && (i.genero == "MASCULINO" || i.genero == "FEMENINO")
    && (i.estado == "ACTIVO" || i.estado == "INACTIVO")
  }

  lemma {:induction false} IssuesOverEmpty(i: Input, now: Clock, fs: seq<Field>)
    ensures IssuesOver(i, now, fs) == [] <==> forall f :: f in fs ==> IssueFor(i, now, f).None?
    decreases |fs|
  {
    if fs != [] {
      IssuesOverEmpty(i, now, fs[1..]);
      assert forall f :: f in fs <==> f == fs[0] || f in fs[1..];
    }
  }

  lemma FieldOrderComplete(f: Field)
    ensures f in FieldOrder
  {
  }

  /** Every field passing its checks is exactly every rule holding. */
  lemma EveryFieldPassesIff(i: Input, now: Clock)
    ensures (forall f :: IssueFor(i, now, f).None?) <==> Accepted(i, now)
  {
    if forall f :: IssueFor(i, now, f).None? {
      FieldsPassAccepted(i, now);
    }
    if Accepted(i, now) {
      forall f ensures IssueFor(i, now, f).None? {
        AcceptedFieldPasses(i, now, f);
      }
    }
  }

  lemma AcceptedFieldPasses(i: Input, now: Clock, f: Field)
    requires Accepted(i, now)
    ensures IssueFor(i, now, f).None?
  {
    match f
    case Dni =>
    case Nombre =>
    case Apellido =>
    case Direccion =>
    case Email =>
    case FechaNacimiento =>
    case GeneroField =>
    case EstadoField =>
  }

  lemma FieldsPassAccepted(i: Input, now: Clock)
    requires forall f :: IssueFor(i, now, f).None?
    ensures Accepted(i, now)
  {
    var dni, nombre, apellido, direccion := IssueFor(i, now, Dni), IssueFor(i, now, Nombre), IssueFor(i, now, Apellido), IssueFor(i, now, Direccion);
    var email, birth := IssueFor(i, now, Email), IssueFor(i, now, FechaNacimiento);
    var genero, estado := IssueFor(i, now, GeneroField), IssueFor(i, now, EstadoField);
  }

  /** No field is reported exactly when every rule holds. */
  lemma NoIssuesIffAccepted(i: Input, now: Clock)
    ensures IssuesOver(i, now, FieldOrder) == [] <==> Accepted(i, now)
  {
    IssuesOverEmpty(i, now, FieldOrder);
    EveryFieldPassesIff(i, now);
    forall f ensures f in FieldOrder {
      FieldOrderComplete(f);
    }
  }

  /** The output carries the input's fields through the schema's transforms: trimmed texts, optional texts dropped when blank, and the enumerations. */
  predicate Transformed(i: Input, o: Output) {
    && o.dni == i.dni
    && o.nombre == Trim(i.nombre) && o.apellido == Trim(i.apellido) && o.direccion == Trim(i.direccion)
    && o.email == OptionalTrimmed(i.email) && o.telefono == OptionalTrimmed(i.telefono)
    && o.fechaNacimiento == i.fechaNacimiento && o.fotoUrl == i.fotoUrl
    && (o.genero == Masculino <==> i.genero == "MASCULINO")
    && (o.estado == Activo <==> i.estado == "ACTIVO")
  }

  /** `socioSchema.safeParse`. */
  function Parse(i: Input, now: Clock): (r: Result<Output, seq<Issue>>)
    ensures r.Ok? <==> Accepted(i, now)
    ensures r.Err? ==> r.error == Issues(i, now) && r.error != []
    ensures r.Ok? ==> Transformed(i, r.value)
  {
    NoIssuesIffAccepted(i, now);
    var issues := Issues(i, now);
    if issues != [] then Err(issues)
    else
      Ok(Output(i.dni, Trim(i.nombre), Trim(i.apellido), Trim(i.direccion),
                OptionalTrimmed(i.email), OptionalTrimmed(i.telefono),
                i.fechaNacimiento, GeneroOf(i.genero).value, EstadoOf(i.estado).value, i.fotoUrl))
  }

  /** A whitespace-only name is accepted and comes out empty. */
  lemma BlankNamePasses(i: Input, now: Clock)
    requires Accepted(i, now) && i.nombre == " "
    ensures Parse(i, now).value.nombre == ""
  {
  }

  /** The form values the parsed record would show again. */
  function Reenter(o: Output): Input {
    Input(o.dni, o.nombre, o.apellido, o.direccion, o.email, o.telefono, o.fechaNacimiento,
          if o.genero == Masculino then "MASCULINO" else "FEMENINO",
          if o.estado == Activo then "ACTIVO" else "INACTIVO",
          o.fotoUrl)
  }

  /**
   * Parsing is idempotent when the required texts are not blank: the
   * parsed record, entered again, parses to itself. A blank name breaks
   * this, because it comes out empty and `min(1)` then rejects it.
   */
  lemma ParseIdempotent(i: Input, now: Clock)
    requires Accepted(i, now)
    requires Trim(i.nombre) != "" && Trim(i.apellido) != "" && Trim(i.direccion) != ""
    ensures Parse(Reenter(Parse(i, now).value), now) == Parse(i, now)
  {
    var o := Parse(i, now).value;
    ReenterAccepted(i, now, o);
    TrimOfTrimmed(o.nombre);
    TrimOfTrimmed(o.apellido);
    TrimOfTrimmed(o.direccion);
    OptionalTrimmedIdempotent(i.email);
    OptionalTrimmedIdempotent(i.telefono);
    ReparseSame(o, Parse(Reenter(o), now).value);
  }

  /** Parsing an accepted re-entered record whose texts are already trimmed gives the record back. */
  lemma ReparseSame(o: Output, o': Output)
    requires Transformed(Reenter(o), o')
    requires Trim(o.nombre) == o.nombre && Trim(o.apellido) == o.apellido && Trim(o.direccion) == o.direccion
    requires OptionalTrimmed(o.email) == o.email && OptionalTrimmed(o.telefono) == o.telefono
    ensures o' == o
  {
    assert o'.genero == Masculino <==> o.genero == Masculino;
    assert o'.estado == Activo <==> o.estado == Activo;
    assert o'.dni == o.dni && o'.nombre == o.nombre && o'.apellido == o.apellido && o'.direccion == o.direccion;
    assert o'.email == o.email && o'.telefono == o.telefono;
    assert o'.fechaNacimiento == o.fechaNacimiento && o'.fotoUrl == o.fotoUrl;
  }

  /** The parsed record, entered again, passes every rule. */
  lemma ReenterAccepted(i: Input, now: Clock, o: Output)
    requires Accepted(i, now) && Parse(i, now) == Ok(o)
    requires Trim(i.nombre) != "" && Trim(i.apellido) != "" && Trim(i.direccion) != ""
    ensures Accepted(Reenter(o), now)
  {
    if i.email.Some? && Trim(i.email.value) != "" {
      TrimOfTrimmed(Trim(i.email.value));
    }
  }

  /** Trimming an optional text twice is trimming it once. */
  lemma OptionalTrimmedIdempotent(v: Option<string>)
    ensures OptionalTrimmed(OptionalTrimmed(v)) == OptionalTrimmed(v)
  {
    if v.Some? && Trim(v.value) != "" {
      TrimOfTrimmed(Trim(v.value));
    }
  }

  lemma BlankNameNotStable(i: Input, now: Clock)
    requires Accepted(i, now) && i.nombre == " "
    ensures Parse(Reenter(Parse(i, now).value), now).Err?
  {
  }

  // ----- the update schema -----

  /** The schema of one optional text field: an issue message, or the field's output. */
  type FieldSchema = Option<string> -> Result<Option<string>, string>

  /** `email`: the format refinement, then the blank-to-absent transform. */
  function EmailField(v: Option<string>): Result<Option<string>, string> {
    match EmailIssue(v)
    case Some(m) => Err(m)
    case None => Ok(OptionalTrimmed(v))
  }

  /** `telefono`: the blank-to-absent transform alone. */
  function TelefonoField(v: Option<string>): Result<Option<string>, string> {
    Ok(OptionalTrimmed(v))
  }

  /** `fotoUrl`: passed through. */
  function FotoUrlField(v: Option<string>): Result<Option<string>, string> {
    Ok(v)
  }

  /**
   * What `partial` does to a field: an absent value passes as absent
   * without reaching the field's own schema; a present one goes through it.
   */
  function Optional(inner: FieldSchema, v: Option<string>): (r: Result<Option<string>, string>)
    ensures v.None? ==> r == Ok(None)
    ensures v.Some? ==> r == inner(v)
  {
    if v.None? then Ok(None) else inner(v)
  }

  /** The issues of the fields in `fs`, followed by those in `gs`. */
  lemma {:induction false} IssuesOverAppend(i: Input, now: Clock, fs: seq<Field>, gs: seq<Field>)
    ensures IssuesOver(i, now, fs + gs) == IssuesOver(i, now, fs) + IssuesOver(i, now, gs)
    decreases |fs|
  {
    if fs != [] {
      assert (fs + gs)[0] == fs[0] && (fs + gs)[1..] == fs[1..] + gs;
      IssuesOverAppend(i, now, fs[1..], gs);
    } else {
      assert fs + gs == gs;
    }
  }

  /**
   * `socioUpdateSchema`, `socioSchema.partial({ email, telefono, fotoUrl })`:
   * the other fields keep their rules, and the three named ones are wrapped
   * by `partial`.
   */
  function ParseUpdate(i: Input, now: Clock): (r: Result<Output, seq<Issue>>)
    ensures r.Ok? ==> Optional(EmailField, i.email) == Ok(r.value.email)
    ensures r.Ok? ==> Optional(TelefonoField, i.telefono) == Ok(r.value.telefono)
    ensures r.Ok? ==> Optional(FotoUrlField, i.fotoUrl) == Ok(r.value.fotoUrl)
    ensures r.Ok? <==> Issues(i, now) == []
  {
    var email := Optional(EmailField, i.email);
    var telefono := Optional(TelefonoField, i.telefono);
    var fotoUrl := Optional(FotoUrlField, i.fotoUrl);
    var issues := UpdateIssues(i, now);
    NoIssuesIffAccepted(i, now);
    if issues != [] then Err(issues)
    else
      Ok(Output(i.dni, Trim(i.nombre), Trim(i.apellido), Trim(i.direccion),
                email.value, telefono.value,
                i.fechaNacimiento, GeneroOf(i.genero).value, EstadoOf(i.estado).value, fotoUrl.value))
  }

  /**
   * The issues of the update schema: the unchanged fields in order, with the
   * wrapped email field in its place; they are the full schema's issues.
   */
  function UpdateIssues(i: Input, now: Clock): (issues: seq<Issue>)
    ensures issues == Issues(i, now)
  {
    SplitIssues(i, now, FieldOrder, [Dni, Nombre, Apellido, Direccion], [FechaNacimiento, GeneroField, EstadoField]);
    OptionalEmailIssues(i, now);
    IssuesOver(i, now, [Dni, Nombre, Apellido, Direccion])
    + FieldIssues(Email, Optional(EmailField, i.email))
    + IssuesOver(i, now, [FechaNacimiento, GeneroField, EstadoField])
  }

  /** The issue list one field's schema result contributes. */
  function FieldIssues(f: Field, r: Result<Option<string>, string>): (issues: seq<Issue>)
    ensures issues == [] <==> r.Ok?
    ensures r.Err? ==> issues == [Issue(f, r.error)]
  {
    if r.Err? then [Issue(f, r.error)] else []
  }

  /** The wrapped email field contributes the issues the plain rule does. */
  lemma OptionalEmailIssues(i: Input, now: Clock)
    ensures FieldIssues(Email, Optional(EmailField, i.email)) == IssuesOver(i, now, [Email])
  {
    IssuesOverSingle(i, now, Email);
    OptionalEmailSame(i.email);
  }

  /** The wrapped email field reports exactly what the plain one does. */
  lemma OptionalEmailSame(v: Option<string>)
    ensures Optional(EmailField, v) == EmailField(v)
    ensures Optional(EmailField, v).Err? <==> EmailIssue(v).Some?
    ensures Optional(EmailField, v).Err? ==> Optional(EmailField, v).error == EmailIssue(v).value
  {
  }

  /** The issues of the whole object, split around the email field. */
  lemma SplitIssues(i: Input, now: Clock, fields: seq<Field>, front: seq<Field>, back: seq<Field>)
    requires fields == front + ([Email] + back)
    ensures IssuesOver(i, now, fields) ==
      IssuesOver(i, now, front) + IssuesOver(i, now, [Email]) + IssuesOver(i, now, back)
  {
    var f, e, b := IssuesOver(i, now, front), IssuesOver(i, now, [Email]), IssuesOver(i, now, back);
    IssuesOverAppend(i, now, front, [Email] + back);
    IssuesOverAppend(i, now, [Email], back);
    assert f + (e + b) == (f + e) + b;
  }

  /** The issues of one field. */
  lemma IssuesOverSingle(i: Input, now: Clock, f: Field)
    ensures IssuesOver(i, now, [f]) == (if IssueFor(i, now, f).Some? then [Issue(f, IssueFor(i, now, f).value)] else [])
  {
    assert [f][1..] == [];
  }

  /**
   * `partial` over email, telefono and fotoUrl changes nothing: the three
   * fields are optional already, so the update schema accepts, rejects and
   * outputs exactly as the creation schema does.
   */
  lemma PartialChangesNothing(i: Input, now: Clock)
    ensures ParseUpdate(i, now) == Parse(i, now)
  {
    SplitIssues(i, now, FieldOrder, [Dni, Nombre, Apellido, Direccion], [FechaNacimiento, GeneroField, EstadoField]);
    OptionalEmailIssues(i, now);
    OptionalEmailSame(i.email);
  }
}
