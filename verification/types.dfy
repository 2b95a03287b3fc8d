/** The records the dashboard exchanges with its backend (lib/types.ts). */
module Types {
  import opened Wrappers

  datatype Genero = Masculino | Femenino

  datatype EstadoSocio = Activo | Inactivo

  /** A club member. Optional fields are `None` when absent. */
  datatype Socio = Socio(
    id: Option<string>,
    dni: string,
    nombre: string,
    apellido: string,
    email: Option<string>,
    telefono: Option<string>,
    fechaNacimiento: Option<string>,
    fechaIngreso: Option<string>,
    direccion: string,
    estado: EstadoSocio,
    genero: Genero)

  /** A season, with `YYYY-MM-DD` start and end dates. */
  datatype Temporada = Temporada(
    id: Option<string>,
    nombre: string,
    fechaInicio: string,
    fechaFin: string,
    descripcion: Option<string>)

  datatype EstadoAsociacion = Activa | Inactiva

  /** The membership of one socio in one season. */
  datatype Asociacion = Asociacion(
    id: string,
    idSocio: string,
    idTemporada: string,
    fechaAsociacion: string,
    estado: EstadoAsociacion)

  /** One row of a season's member list: the association id and the socio. */
  datatype SocioTemporada = SocioTemporada(id: int, socio: Socio)

  datatype RegistroEntrada = RegistroEntrada(
    id: string,
    idSocio: string,
    nombreSocio: string,
    dniSocio: string,
    horaEntrada: string,
    fecha: string)

  datatype EstadisticasDiarias = EstadisticasDiarias(
    fecha: string,
    totalEntradas: int,
    actualmenteDentro: int,
    picoOcupacion: int,
    tiempoPromedioEstadia: Option<real>)

  /** The pagination block of the backend's search responses. */
  datatype Paginacion = Paginacion(
    paginaActual: int,
    totalPaginas: int,
    totalElementos: int,
    elementosPorPagina: int,
    tieneSiguientePagina: bool,
    tieneAnteriorPagina: bool)

  /** JavaScript truthiness of an optional string: present and non-empty. */
  predicate Truthy(o: Option<string>) {
    o.Some? && o.value != ""
  }
}
