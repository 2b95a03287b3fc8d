/**
 * The in-memory fixtures of lib/mock-data.ts and the lookup and filter
 * functions over them. The functions take the tables as a parameter, so
 * their contracts hold for any tables; `Mock` is the one the file ships.
 */
module MockData {
  import opened Wrappers
  import opened Types
  import opened Lists
  import opened Text

  /** The five fixture tables. */
  datatype Db = Db(
    socios: seq<Socio>,
    temporadas: seq<Temporada>,
    asociaciones: seq<Asociacion>,
    registros: seq<RegistroEntrada>,
    estadisticas: seq<EstadisticasDiarias>)

  // ----- The shipped tables -----

  function MockSocio(id: string, dni: string, nombre: string, apellido: string, email: string, telefono: string,
                     nacimiento: string, genero: Genero, estado: EstadoSocio, ingreso: string, direccion: string): Socio
  {
    Socio(Some(id), dni, nombre, apellido, Some(email), Some(telefono), Some(nacimiento), Some(ingreso), direccion, estado, genero)
  }

  const MockSocios: seq<Socio> := [
    MockSocio("1", "12345678", "Juan", "Pérez", "juan.perez@email.com", "1234567890", "1985-03-15", Masculino, Activo, "2023-01-15", "Av. Corrientes 1234, CABA"),
    MockSocio("2", "87654321", "María", "González", "maria.gonzalez@email.com", "0987654321", "1990-07-22", Femenino, Activo, "2023-02-10", "Rivadavia 5678, CABA"),
    MockSocio("3", "11223344", "Carlos", "Rodríguez", "carlos.rodriguez@email.com", "1122334455", "1978-11-08", Masculino, Activo, "2023-01-20", "San Martín 910, CABA"),
    MockSocio("4", "55667788", "Ana", "López", "ana.lopez@email.com", "5566778899", "1992-05-14", Femenino, Inactivo, "2023-03-05", "Belgrano 1122, CABA"),
    MockSocio("5", "99887766", "Roberto", "Martínez", "roberto.martinez@email.com", "9988776655", "1980-12-03", Masculino, Activo, "2023-01-30", "Libertad 3344, CABA"),
    MockSocio("6", "44556677", "Laura", "Fernández", "laura.fernandez@email.com", "4455667788", "1988-09-18", Femenino, Activo, "2023-02-15", "Maipú 5566, CABA"),
    MockSocio("7", "33445566", "Diego", "Silva", "diego.silva@email.com", "3344556677", "1995-01-25", Masculino, Activo, "2023-03-10", "Florida 7788, CABA"),
    MockSocio("8", "22334455", "Sofía", "Torres", "sofia.torres@email.com", "2233445566", "1987-06-12", Femenino, Activo, "2023-02-20", "Callao 9900, CABA")
  ]

  const MockTemporadas: seq<Temporada> := [
    Temporada(Some("1"), "Temporada Verano 2024", "2023-12-01", "2024-03-31", Some("Temporada de verano con actividades acuáticas")),
    Temporada(Some("2"), "Temporada Invierno 2024", "2024-06-01", "2024-09-30", Some("Temporada de invierno con actividades indoor")),
    Temporada(Some("3"), "Temporada Primavera 2024", "2024-09-01", "2024-12-31", Some("Temporada de primavera con actividades al aire libre")),
    Temporada(Some("4"), "Temporada Verano 2025", "2024-12-01", "2025-10-31", Some("Temporada de verano 2025 con actividades acuáticas y pileta climatizada"))
  ]

  const MockAsociaciones: seq<Asociacion> := [
    Asociacion("assoc-1", "1", "1", "2023-12-01", Activa),
    Asociacion("assoc-2", "2", "1", "2023-12-01", Activa),
    Asociacion("assoc-3", "3", "1", "2023-12-01", Activa),
    Asociacion("assoc-4", "4", "2", "2024-06-01", Activa),
    Asociacion("assoc-5", "5", "2", "2024-06-01", Activa),
    Asociacion("assoc-6", "6", "3", "2024-09-01", Activa),
    Asociacion("assoc-7", "7", "3", "2024-09-01", Activa),
    Asociacion("assoc-8", "8", "3", "2024-09-01", Activa),
    Asociacion("assoc-9", "1", "4", "2024-12-01", Activa),
    Asociacion("assoc-10", "2", "4", "2024-12-01", Activa),
    Asociacion("assoc-11", "6", "4", "2024-12-01", Activa)
  ]

  const MockRegistros: seq<RegistroEntrada> := [
    RegistroEntrada("1", "1", "Juan Pérez", "12345678", "09:30", "2024-12-30"),
    RegistroEntrada("2", "2", "María González", "87654321", "10:15", "2024-12-30"),
    RegistroEntrada("3", "3", "Carlos Rodríguez", "11223344", "08:45", "2024-12-30"),
    RegistroEntrada("4", "4", "Ana López", "55667788", "11:00", "2024-12-30"),
    RegistroEntrada("5", "5", "Roberto Martínez", "99887766", "07:30", "2024-12-30"),
    RegistroEntrada("6", "1", "Juan Pérez", "12345678", "08:00", "2024-12-31"),
    RegistroEntrada("7", "6", "Laura Fernández", "44556677", "09:15", "2024-12-31"),
    RegistroEntrada("8", "7", "Diego Silva", "33445566", "10:30", "2024-12-31"),
    RegistroEntrada("9", "2", "María González", "87654321", "11:45", "2024-12-31"),
    RegistroEntrada("10", "8", "Sofía Torres", "22334455", "12:00", "2024-12-31")
  ]

  const MockEstadisticas: seq<EstadisticasDiarias> := [
    EstadisticasDiarias("2024-12-30", 45, 0, 28, Some(4.2)),
    EstadisticasDiarias("2024-12-31", 32, 8, 25, Some(3.8))
  ]

  const Mock: Db := Db(MockSocios, MockTemporadas, MockAsociaciones, MockRegistros, MockEstadisticas)

  // ----- Lookups -----

  /** `getSocioById`: the first socio carrying that id. A socio without an id never matches. */
  function SocioById(db: Db, id: string): (r: Option<Socio>)
    ensures r.None? <==> forall i :: 0 <= i < |db.socios| ==> db.socios[i].id != Some(id)
    ensures r.Some? ==> exists i :: (0 <= i < |db.socios| && db.socios[i] == r.value && r.value.id == Some(id)
                                    && forall j :: 0 <= j < i ==> db.socios[j].id != Some(id))
  {
    Find(db.socios, (s: Socio) => s.id == Some(id))
  }

  /** `getTemporadaById`. */
  function TemporadaById(db: Db, id: string): (r: Option<Temporada>)
    ensures r.None? <==> forall i :: 0 <= i < |db.temporadas| ==> db.temporadas[i].id != Some(id)
    ensures r.Some? ==> exists i :: (0 <= i < |db.temporadas| && db.temporadas[i] == r.value && r.value.id == Some(id)
                                    && forall j :: 0 <= j < i ==> db.temporadas[j].id != Some(id))
  {
    Find(db.temporadas, (t: Temporada) => t.id == Some(id))
  }

  /** `getAsociacionesByTemporadaId`: every association of the season, in table order. */
  function AsociacionesByTemporada(db: Db, idTemporada: string): (r: seq<Asociacion>)
    ensures SubsequenceOf(r, db.asociaciones)
    ensures forall a :: a in r <==> a in db.asociaciones && a.idTemporada == idTemporada
    ensures forall a: Asociacion :: a.idTemporada == idTemporada ==> multiset(r)[a] == multiset(db.asociaciones)[a]
  {
    Filter(db.asociaciones, (a: Asociacion) => a.idTemporada == idTemporada)
  }

  /** `getAsociacionesBySocioId`. */
  function AsociacionesBySocio(db: Db, idSocio: string): (r: seq<Asociacion>)
    ensures SubsequenceOf(r, db.asociaciones)
    ensures forall a :: a in r <==> a in db.asociaciones && a.idSocio == idSocio
    ensures forall a: Asociacion :: a.idSocio == idSocio ==> multiset(r)[a] == multiset(db.asociaciones)[a]
  {
    Filter(db.asociaciones, (a: Asociacion) => a.idSocio == idSocio)
  }

  /** Some association, in any state, ties the socio to the season. */
  predicate Associated(db: Db, idSocio: string, idTemporada: string) {
    exists a :: a in db.asociaciones && a.idSocio == idSocio && a.idTemporada == idTemporada
  }

  /** `.map(asociacion => asociacion.idSocio)`. */
  function SocioIdsOf(own: seq<Asociacion>): (r: seq<string>)
    ensures forall x :: x in r <==> exists a :: a in own && a.idSocio == x
  {
    var r := seq(|own|, i requires 0 <= i < |own| => own[i].idSocio);
    assert forall a :: a in own ==> a.idSocio in r by {
      forall a | a in own ensures a.idSocio in r {
        var k :| 0 <= k < |own| && own[k] == a;
        assert r[k] == a.idSocio;
      }
    }
    r
  }

  /** The ids of the season's members: the `idsSociosAsociados` list. */
  function AssociatedIds(db: Db, idTemporada: string): (r: seq<string>)
    ensures forall x :: x in r <==> Associated(db, x, idTemporada)
  {
    SocioIdsOf(AsociacionesByTemporada(db, idTemporada))
  }

  /** The filter of `getSociosDisponiblesParaTemporada`. */
  predicate Available(db: Db, idTemporada: string, s: Socio) {
    Truthy(s.id) && s.id.value !in AssociatedIds(db, idTemporada) && s.estado == Activo
  }

  /**
   * `getSociosDisponiblesParaTemporada`: the active socios with an id that
   * are not members of the season, in table order.
   */
  function SociosDisponibles(db: Db, idTemporada: string): (r: seq<Socio>)
    ensures SubsequenceOf(r, db.socios)
    ensures forall s :: s in r <==>
      && s in db.socios
      && s.estado == Activo
      && s.id.Some? && s.id.value != ""
      && !Associated(db, s.id.value, idTemporada)
    ensures forall s :: multiset(r)[s] == if Available(db, idTemporada, s) then multiset(db.socios)[s] else 0
  {
    Filter(db.socios, (s: Socio) => Available(db, idTemporada, s))
  }

  /** No socio is offered to a season it already belongs to. */
  lemma DisponiblesDisjoint(db: Db, idTemporada: string, s: Socio, a: Asociacion)
    requires s in SociosDisponibles(db, idTemporada)
    requires a in AsociacionesByTemporada(db, idTemporada)
    ensures s.id != Some(a.idSocio)
  {
  }

  /** `registro.fecha >= fechaInicio && registro.fecha <= fechaFin`, as string comparisons. */
  predicate InRange(fecha: string, fechaInicio: string, fechaFin: string) {
    LexLessEq(fechaInicio, fecha) && LexLessEq(fecha, fechaFin)
  }

  /** `getRegistrosEntradaByRangoFecha`. */
  function RegistrosEnRango(db: Db, fechaInicio: string, fechaFin: string): (r: seq<RegistroEntrada>)
    ensures SubsequenceOf(r, db.registros)
    ensures forall e :: e in r <==> e in db.registros && InRange(e.fecha, fechaInicio, fechaFin)
    ensures forall e :: multiset(r)[e] == if InRange(e.fecha, fechaInicio, fechaFin) then multiset(db.registros)[e] else 0
  {
    Filter(db.registros, (e: RegistroEntrada) => InRange(e.fecha, fechaInicio, fechaFin))
  }

  /** `getEstadisticasDiariasByRangoFecha`. */
  function EstadisticasEnRango(db: Db, fechaInicio: string, fechaFin: string): (r: seq<EstadisticasDiarias>)
    ensures SubsequenceOf(r, db.estadisticas)
    ensures forall e :: e in r <==> e in db.estadisticas && InRange(e.fecha, fechaInicio, fechaFin)
    ensures forall e :: multiset(r)[e] == if InRange(e.fecha, fechaInicio, fechaFin) then multiset(db.estadisticas)[e] else 0
  {
    Filter(db.estadisticas, (e: EstadisticasDiarias) => InRange(e.fecha, fechaInicio, fechaFin))
  }

  /** Both ends of the range are included: a one-day range returns that day's entries. */
  lemma RangeInclusive(db: Db, day: string)
    ensures forall e :: e in db.registros && e.fecha == day ==> e in RegistrosEnRango(db, day, day)
    ensures forall e :: e in RegistrosEnRango(db, day, day) ==> e.fecha == day
  {
    forall e | e in RegistrosEnRango(db, day, day) ensures e.fecha == day {
      if e.fecha != day {
        LexAsymmetric(day, e.fecha);
      }
    }
  }

  // ----- Referential integrity of the fixtures -----

  /** Present socio ids are unique. */
  predicate UniqueSocioIds(socios: seq<Socio>) {
    forall i, j :: 0 <= i < j < |socios| && socios[i].id.Some? ==> socios[i].id != socios[j].id
  }

  /** Every association points at a socio of the tables. */
  predicate SociosResolve(db: Db) {
    forall i :: 0 <= i < |db.asociaciones| ==> SocioById(db, db.asociaciones[i].idSocio).Some?
  }

  /** Every association points at a season of the tables. */
  predicate TemporadasResolve(db: Db) {
    forall i :: 0 <= i < |db.asociaciones| ==> TemporadaById(db, db.asociaciones[i].idTemporada).Some?
  }

  /** Every season starts before it ends. */
  predicate SeasonsOrdered(temporadas: seq<Temporada>) {
    forall i :: 0 <= i < |temporadas| ==> LexLess(temporadas[i].fechaInicio, temporadas[i].fechaFin)
  }

  predicate Consistent(db: Db) {
    UniqueSocioIds(db.socios) && SociosResolve(db) && TemporadasResolve(db) && SeasonsOrdered(db.temporadas)
  }

  /** With unique ids, looking a socio up by its own id gives that socio back. */
  lemma LookupOwnId(db: Db, k: int)
    requires UniqueSocioIds(db.socios)
    requires 0 <= k < |db.socios| && db.socios[k].id.Some?
    ensures SocioById(db, db.socios[k].id.value) == Some(db.socios[k])
  {
    var r := SocioById(db, db.socios[k].id.value);
    var i :| 0 <= i < |db.socios| && db.socios[i] == r.value && r.value.id == db.socios[k].id
             && forall j :: 0 <= j < i ==> db.socios[j].id != db.socios[k].id;
  }

  /** Every socio offered for a season can be looked up by its id. */
  lemma LookupAvailable(db: Db, idTemporada: string, s: Socio)
    requires UniqueSocioIds(db.socios)
    requires s in SociosDisponibles(db, idTemporada)
    ensures SocioById(db, s.id.value) == Some(s)
  {
    var k :| 0 <= k < |db.socios| && db.socios[k] == s;
    LookupOwnId(db, k);
  }

  /** Socios numbered "1", "2", … in table order have unique ids. */
  lemma NumberedIdsUnique(socios: seq<Socio>)
    requires |socios| <= 9
    requires forall i :: 0 <= i < |socios| ==> socios[i].id == Some([('1' as int + i) as char])
    ensures UniqueSocioIds(socios)
  {
    forall i, j | 0 <= i < j < |socios|
      ensures socios[i].id != socios[j].id
    {
      assert socios[i].id.value[0] != socios[j].id.value[0];
    }
  }

  lemma MockSocioIdsUnique()
    ensures UniqueSocioIds(Mock.socios)
  {
    NumberedIdsUnique(MockSocios);
  }

  /** Associations resolve when each one's socio id is carried by the socio at a known position. */
  lemma SociosResolveByIndex(db: Db, idx: seq<int>)
    requires |idx| == |db.asociaciones|
    requires forall i :: 0 <= i < |idx| ==>
      0 <= idx[i] < |db.socios| && db.socios[idx[i]].id == Some(db.asociaciones[i].idSocio)
    ensures SociosResolve(db)
  {
    forall i | 0 <= i < |db.asociaciones|
      ensures SocioById(db, db.asociaciones[i].idSocio).Some?
    {
      assert db.socios[idx[i]].id == Some(db.asociaciones[i].idSocio);
    }
  }

  /** The same for seasons. */
  lemma TemporadasResolveByIndex(db: Db, idx: seq<int>)
    requires |idx| == |db.asociaciones|
    requires forall i :: 0 <= i < |idx| ==>
      0 <= idx[i] < |db.temporadas| && db.temporadas[idx[i]].id == Some(db.asociaciones[i].idTemporada)
    ensures TemporadasResolve(db)
  {
    forall i | 0 <= i < |db.asociaciones|
      ensures TemporadaById(db, db.asociaciones[i].idTemporada).Some?
    {
      assert db.temporadas[idx[i]].id == Some(db.asociaciones[i].idTemporada);
    }
  }

  /** The socio position each mock association points at. */
  const MockSocioIndex: seq<int> := [0, 1, 2, 3, 4, 5, 6, 7, 0, 1, 5]

  /** The season position each mock association points at. */
  const MockTemporadaIndex: seq<int> := [0, 0, 0, 1, 1, 2, 2, 2, 3, 3, 3]

  lemma MockSociosResolve()
    ensures SociosResolve(Mock)
  {
    SociosResolveByIndex(Mock, MockSocioIndex);
  }

  lemma MockTemporadasResolve()
    ensures TemporadasResolve(Mock)
  {
    TemporadasResolveByIndex(Mock, MockTemporadaIndex);
  }

  lemma MockSeasonsOrdered()
    ensures SeasonsOrdered(Mock.temporadas)
  {
    forall i | 0 <= i < |MockTemporadas|
      ensures LexLess(MockTemporadas[i].fechaInicio, MockTemporadas[i].fechaFin)
    {
      // The position of the first differing character of each pair.
      var t := MockTemporadas[i];
      if i == 0 {
        LexLessAt(t.fechaInicio, t.fechaFin, 3);
      } else if i == 1 {
        LexLessAt(t.fechaInicio, t.fechaFin, 6);
      } else if i == 2 {
        LexLessAt(t.fechaInicio, t.fechaFin, 5);
      } else {
        LexLessAt(t.fechaInicio, t.fechaFin, 3);
      }
    }
  }

  /** The shipped tables are consistent. */
  lemma MockConsistent()
    ensures Consistent(Mock)
  {
    MockSocioIdsUnique();
    MockSociosResolve();
    MockTemporadasResolve();
    MockSeasonsOrdered();
  }
}
