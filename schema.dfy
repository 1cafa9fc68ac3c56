/** The records of the identity collections (src/models/User.js, Account.js,
    Session.js, FailedAttempt.js, PassHistory.js), with their enums and defaults. */
module Schema {
  import opened Base

  datatype Role = Cliente | Administrador

  /** The values the `estado` enum of a user admits. */
  datatype Estado = Activo | Bloqueado | Pendiente | BloqueadoPermanente

  /** The enum check `save()` runs on `estado`: None when the string is not admitted. */
  function EstadoFromString(s: string): (r: Option<Estado>)
    ensures r.Some? <==> s in {"activo", "bloqueado", "pendiente", "bloqueado_permanente"}
  {
    if s == "activo" then Some(Activo)
    else if s == "bloqueado" then Some(Bloqueado)
    else if s == "pendiente" then Some(Pendiente)
    else if s == "bloqueado_permanente" then Some(BloqueadoPermanente)
    else None
  }

  /** A user's address; "" is an absent part. */
  datatype Address = Address(calle: string, ciudad: string, estado: string, codigoPostal: string)

  const NoAddress: Address := Address("", "", "", "")

  datatype User = User(
    id: Oid,
    nombre: string,
    email: string,
    telefono: string,
    direccion: Address,
    tipoUsuario: Role,
    estado: Estado,
    mfaActivado: bool)

  datatype MfaTipo = Totp | Sms

  /** An account: the credential of one user. `fechaUltimoCambio` has no default. */
  datatype Account = Account(
    id: Oid,
    userId: Oid,
    contraseniaHash: Hash,
    requiereCambio: bool,
    fechaUltimoCambio: Option<Time>,
    mfaTipo: Option<MfaTipo>,
    mfaEnabled: bool)

  datatype Session = Session(
    userId: Oid,
    token: Token,
    fechaCreacion: Time,
    ultimaActividad: Time,
    expiracion: Time,
    ip: string,
    navegador: string,
    revocada: bool)

  datatype FailedAttempt = FailedAttempt(userId: Oid, fecha: Time, ip: string, numeroIntentos: nat)

  /** A former password hash, keyed by the id of the ACCOUNT it belonged to. */
  datatype PassHistoryEntry = PassHistoryEntry(accountId: Oid, contraseniaHash: Hash, fechaCambio: Time)
}
