/**
 * The error vocabulary shared with the backend (lib/errors/error.types.ts):
 * the twenty backend error codes, the parsed `ApiError` and the `UiError`
 * shown to the user.
 */
module ErrorTypes {
  import opened Wrappers
  import Text
  import Lists

  /** `BackendErrorCode`, in declaration order. */
  datatype BackendCode =
    | InternalServerError | UnexpectedError
    | UserNotFound | InvalidPassword | Unauthorized | TokenInvalid
    | ValidationError | InvalidDni | DniAlreadyExists
    | SocioNotFound | TemporadaNotFound | RegistroNotFound | AsociacionNotFound
    | SocioAlreadyRegisteredToday | OverlappingSeasons | CannotDeleteSocio
    | DbConstraintError | DbConnectionError | DbUniqueViolation | DbForeignKeyViolation

  /** The wire string of each code. */
  function CodeString(c: BackendCode): (r: string)
    ensures Text.StartsWith(r, "ERR_")
  {
    match c
    case InternalServerError => "ERR_INTERNAL_SERVER"
    case UnexpectedError => "ERR_UNEXPECTED"
    case UserNotFound => "ERR_USER_NOT_FOUND"
    case InvalidPassword => "ERR_INVALID_PASSWORD"
    case Unauthorized => "ERR_UNAUTHORIZED"
    case TokenInvalid => "ERR_TOKEN_INVALID"
    case ValidationError => "ERR_VALIDATION"
    case InvalidDni => "ERR_INVALID_DNI"
    case DniAlreadyExists => "ERR_DNI_EXISTS"
    case SocioNotFound => "ERR_SOCIO_NOT_FOUND"
    case TemporadaNotFound => "ERR_TEMPORADA_NOT_FOUND"
    case RegistroNotFound => "ERR_REGISTRO_NOT_FOUND"
    case AsociacionNotFound => "ERR_ASOCIACION_NOT_FOUND"
    case SocioAlreadyRegisteredToday => "ERR_ALREADY_REGISTERED_TODAY"
    case OverlappingSeasons => "ERR_OVERLAPPING_SEASONS"
    case CannotDeleteSocio => "ERR_CANNOT_DELETE_SOCIO"
    case DbConstraintError => "ERR_DB_CONSTRAINT"
    case DbConnectionError => "ERR_DB_CONNECTION"
    case DbUniqueViolation => "ERR_DB_UNIQUE"
    case DbForeignKeyViolation => "ERR_DB_FOREIGN_KEY"
  }

  /** `Object.values(BackendErrorCode)`: every code, in declaration order. */
  const AllCodes: seq<BackendCode> := [
    InternalServerError, UnexpectedError, UserNotFound, InvalidPassword,
    Unauthorized, TokenInvalid, ValidationError, InvalidDni,
    DniAlreadyExists, SocioNotFound, TemporadaNotFound, RegistroNotFound,
    AsociacionNotFound, SocioAlreadyRegisteredToday, OverlappingSeasons, CannotDeleteSocio,
    DbConstraintError, DbConnectionError, DbUniqueViolation, DbForeignKeyViolation
  ]

  /** The table is complete. */
  lemma AllCodesListed(c: BackendCode)
    ensures c in AllCodes
  {
  }

  /**
   * The wire string of a code if `s` is one: the scan behind
   * `Object.values(BackendErrorCode).includes(s)`.
   */
  function ParseCode(s: string): (r: Option<BackendCode>)
    ensures r.Some? ==> CodeString(r.value) == s
    ensures r.None? <==> forall c :: c in AllCodes ==> CodeString(c) != s
  {
    Lists.Find(AllCodes, (c: BackendCode) => CodeString(c) == s)
  }

  /** The length of a wire string and its eleventh character, which tell the twenty apart. */
  function Signature(c: BackendCode): (int, char) {
    match c
    case InternalServerError => (19, 'A')
    case UnexpectedError => (14, 'C')
    case UserNotFound => (18, 'O')
    case InvalidPassword => (20, 'D')
    case Unauthorized => (16, 'O')
    case TokenInvalid => (17, 'I')
    case ValidationError => (14, 'T')
    case InvalidDni => (15, 'D')
    case DniAlreadyExists => (14, 'I')
    case SocioNotFound => (19, 'N')
    case TemporadaNotFound => (23, 'A')
    case RegistroNotFound => (22, 'R')
    case AsociacionNotFound => (24, 'C')
    case SocioAlreadyRegisteredToday => (28, 'Y')
    case OverlappingSeasons => (23, 'P')
    case CannotDeleteSocio => (23, '_')
    case DbConstraintError => (17, 'S')
    case DbConnectionError => (17, 'N')
    case DbUniqueViolation => (13, 'Q')
    case DbForeignKeyViolation => (18, 'E')
  }

  lemma SignatureOf(c: BackendCode)
    ensures |CodeString(c)| > 10 && Signature(c) == (|CodeString(c)|, CodeString(c)[10])
  {
  }

  /** Every wire string is longer than `ERR_UNKNOWN`. */
  lemma CodeLength(c: BackendCode)
    ensures |CodeString(c)| >= 13
  {
  }

  /** A string shorter than every wire string is not a backend code. */
  lemma ShortIsNotCode(s: string)
    requires |s| < 13
    ensures ParseCode(s) == None
  {
    forall c ensures CodeString(c) != s {
      CodeLength(c);
    }
  }

  /** The twenty wire strings are pairwise distinct. */
  lemma CodeStringInjective(a: BackendCode, b: BackendCode)
    requires CodeString(a) == CodeString(b)
    ensures a == b
  {
    SignatureOf(a);
    SignatureOf(b);
  }

  /** Parsing recovers every code from its wire string. */
  lemma ParseCodeString(c: BackendCode)
    ensures ParseCode(CodeString(c)) == Some(c)
  {
    var r := ParseCode(CodeString(c));
    CodeStringInjective(r.value, c);
  }

  /** `isValidBackendCode`: the value is a string and one of the twenty codes. */
  predicate IsValidBackendCode(code: Option<string>) {
    code.Some? && ParseCode(code.value).Some?
  }

  lemma IsValidBackendCodeIff(code: Option<string>)
    ensures IsValidBackendCode(code) <==> exists c :: code == Some(CodeString(c))
  {
    if code.Some? && !IsValidBackendCode(code) {
      forall c ensures code != Some(CodeString(c)) {
        ParseCodeString(c);
      }
    }
  }

  /** The code of an `ApiError`: a backend code or `ERR_UNKNOWN`. */
  datatype ApiCode = Backend(code: BackendCode) | Unknown

  function ApiCodeString(c: ApiCode): (r: string)
    ensures Text.StartsWith(r, "ERR_")
  {
    match c
    case Backend(b) => CodeString(b)
    case Unknown => "ERR_UNKNOWN"
  }

  /** `ERR_UNKNOWN` is not a backend code, so the two cases of `ApiCode` never share a string. */
  lemma UnknownIsNotBackend(c: BackendCode)
    ensures ParseCode("ERR_UNKNOWN") == None
    ensures CodeString(c) != "ERR_UNKNOWN"
  {
    CodeLength(c);
    ShortIsNotCode("ERR_UNKNOWN");
  }

  /** The parsed error; the creation timestamp is not modelled. */
  datatype ApiError = ApiError(status: int, code: ApiCode, message: string)

  datatype Variant = Error | Warning | Info

  datatype UiError = UiError(title: string, message: string, variant: Variant, actionable: bool)
}
