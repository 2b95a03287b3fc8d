/** The configuration constants of lib/constants.ts. */
module Constants {

  /** `STALE_TIME`: five minutes, in milliseconds. */
  const StaleTime: int := 1000 * 60 * 5

  // PAGINACION
  const DefaultPageSize: int := 10
  const MaxPageSize: int := 50
  const MinPageSize: int := 5
  const PageSizeOptions: seq<int> := [5, 10, 20, 50]

  // BUSQUEDA
  const DebounceDelay: int := 300
  const MinSearchLength: int := 2
  const MaxSearchLength: int := 50

  // VALIDACION
  const DniMinLength: int := 8
  const DniMaxLength: int := 8
  const EmailMaxLength: int := 100
  const MaxAge: int := 120

  // MENSAJES_ERROR (the ones the modelled code uses)
  const CampoRequerido: string := "Este campo es obligatorio."
  const DniInvalido: string := "El DNI debe tener exactamente 8 dígitos numéricos."
  const EmailInvalido: string := "El formato del email no es válido."
  const FechaNacimientoInvalida: string := "La fecha de nacimiento no puede ser posterior a hoy."
  const EdadFueraDeRango: string := "La edad debe estar entre 0 y 120 años."
  const NombreTemporadaInvalido: string := "El nombre de la temporada es requerido."
  const FechaInicioInvalida: string := "La fecha de inicio es requerida."
  const FechaFinInvalida: string := "La fecha de fin es requerida."
  const OrdenFechasInvalido: string := "La fecha de fin debe ser posterior a la fecha de inicio."
  const LongitudDescripcionInvalida: string := "La descripción no puede tener más de 100 caracteres."

  // MENSAJES_EXITO
  const SocioCreado: string := "Socio creado exitosamente."
  const SocioEliminado: string := "Socio eliminado exitosamente."
  const SocioActualizado: string := "Socio actualizado exitosamente."
  const TemporadaCreada: string := "Temporada creada exitosamente."
  const TemporadaEliminada: string := "Temporada eliminada exitosamente."
  const TemporadaActualizada: string := "Temporada actualizada exitosamente."
  const AsociacionCreada: string := "Socio agregado a la temporada."
  const AsociacionEliminada: string := "Socio removido de la temporada."

  /** The page-size options are strictly increasing, within the bounds, and include the default. */
  lemma PageSizeTable()
    ensures forall i, j :: 0 <= i < j < |PageSizeOptions| ==> PageSizeOptions[i] < PageSizeOptions[j]
    ensures forall i :: 0 <= i < |PageSizeOptions| ==>
      MinPageSize <= PageSizeOptions[i] <= MaxPageSize
    ensures DefaultPageSize in PageSizeOptions
    ensures PageSizeOptions[0] == MinPageSize && PageSizeOptions[|PageSizeOptions| - 1] == MaxPageSize
  {
  }

  /** The search, DNI and cache constants are mutually consistent. */
  lemma LimitsConsistent()
    ensures 0 < MinSearchLength <= MaxSearchLength
    ensures DebounceDelay > 0
    ensures DniMinLength == DniMaxLength == 8
    ensures StaleTime == 300000
  {
  }
}
