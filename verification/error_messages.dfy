/** The user-facing tables of lib/errors/error-messages.ts. */
module ErrorMessages {
  import opened ErrorTypes

  /** The keys of `ERROR_MESSAGES`: every backend code plus three client-side ones. */
  datatype MessageKey = Code(code: BackendCode) | UnknownKey | NetworkKey | TimeoutKey

  const MsgInternalServerError: string := "Error interno del servidor. Por favor, intente nuevamente más tarde."
  const MsgUnexpectedError: string := "Ocurrió un error inesperado. Por favor, contacte a soporte."
  const MsgUserNotFound: string := "Usuario no encontrado. Verifique sus credenciales."
  const MsgInvalidPassword: string := "La contraseña ingresada es incorrecta."
  const MsgUnauthorized: string := "No tiene permisos para realizar esta acción."
  const MsgTokenInvalid: string := "Su sesión ha expirado. Por favor, inicie sesión nuevamente."
  const MsgValidationError: string := "Los datos ingresados no son válidos. Verifique los campos marcados."
  const MsgInvalidDni: string := "El DNI ingresado no es válido. Debe contener 8 dígitos numéricos."
  const MsgDniAlreadyExists: string := "Ya existe un socio registrado con este DNI."
  const MsgSocioNotFound: string := "El socio solicitado no fue encontrado."
  const MsgTemporadaNotFound: string := "La temporada solicitada no fue encontrada."
  const MsgRegistroNotFound: string := "El registro de ingreso no fue encontrado."
  const MsgAsociacionNotFound: string := "La asociación no fue encontrada."
  const MsgSocioAlreadyRegisteredToday: string := "Esta persona ya registró su ingreso hoy."
  const MsgOverlappingSeasons: string := "Las fechas de la temporada se solapan con otra temporada existente."
  const MsgCannotDeleteSocio: string := "No se puede eliminar el socio porque tiene registros asociados."
  const MsgDbConstraintError: string := "La operación viola una restricción de la base de datos."
  const MsgDbConnectionError: string := "Error de conexión con la base de datos. Intente nuevamente."
  const MsgDbUniqueViolation: string := "El valor ingresado ya existe en el sistema."
  const MsgDbForeignKeyViolation: string := "La operación no se puede completar debido a dependencias en otros registros."

  /** The entry of `ERROR_MESSAGES` for a backend code. */
  function CodeMessage(c: BackendCode): (r: string)
    ensures |r| > 0
  {
    match c
    case InternalServerError => MsgInternalServerError
    case UnexpectedError => MsgUnexpectedError
    case UserNotFound => MsgUserNotFound
    case InvalidPassword => MsgInvalidPassword
    case Unauthorized => MsgUnauthorized
    case TokenInvalid => MsgTokenInvalid
    case ValidationError => MsgValidationError
    case InvalidDni => MsgInvalidDni
    case DniAlreadyExists => MsgDniAlreadyExists
    case SocioNotFound => MsgSocioNotFound
    case TemporadaNotFound => MsgTemporadaNotFound
    case RegistroNotFound => MsgRegistroNotFound
    case AsociacionNotFound => MsgAsociacionNotFound
    case SocioAlreadyRegisteredToday => MsgSocioAlreadyRegisteredToday
    case OverlappingSeasons => MsgOverlappingSeasons
    case CannotDeleteSocio => MsgCannotDeleteSocio
    case DbConstraintError => MsgDbConstraintError
    case DbConnectionError => MsgDbConnectionError
    case DbUniqueViolation => MsgDbUniqueViolation
    case DbForeignKeyViolation => MsgDbForeignKeyViolation
  }

  /** `ERROR_MESSAGES`. */
  function Message(k: MessageKey): (r: string)
    ensures |r| > 0
  {
    match k
    case Code(c) => CodeMessage(c)
    case UnknownKey => "Ocurrió un error desconocido. Por favor, intente nuevamente."
    case NetworkKey => "Error de conexión. Verifique su conexión a internet."
    case TimeoutKey => "La operación tardó demasiado tiempo. Por favor, intente nuevamente."
  }

  /** `ERROR_MESSAGES[code]` for the code of an `ApiError`. */
  function MessageOf(c: ApiCode): (r: string)
    ensures |r| > 0
    ensures c.Unknown? ==> r == Message(UnknownKey)
    ensures c.Backend? ==> r == Message(Code(c.code))
  {
    match c
    case Backend(b) => Message(Code(b))
    case Unknown => Message(UnknownKey)
  }

  /** `ERROR_TITLES`. */
  function Title(v: Variant): (r: string)
    ensures |r| > 0
  {
    match v
    case Error => "Error"
    case Warning => "Advertencia"
    case Info => "Información"
  }

  /** The three titles are pairwise distinct, so the title identifies the variant. */
  lemma TitleInjective(a: Variant, b: Variant)
    requires Title(a) == Title(b)
    ensures a == b
  {
  }
}
