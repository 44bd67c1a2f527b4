/** The user service's error classification (src/services/userService.ts). */
module UserService {
  import opened Wrappers
  import opened HttpErrors
  import AuthService

  const NotFoundMessage := "Usuário não encontrado"
  const ConflictMessage := "Email já está em uso"
  const BadRequestMessage := "Dados inválidos"
  const ServerErrorMessage := "Erro no servidor"
  const GenericMessage := "Ocorreu um erro inesperado"
  const ConnectionMessage := "Erro na conexão com o servidor"

  /** `_handleError`: the message of the error it returns. */
  function HandleError(e: HttpError): string
  {
    match e.response
    case Some(r) =>
      (match r.status
       case 404 => NotFoundMessage
       case 409 => ConflictMessage
       case 400 => BadRequestMessage
       case 500 => ServerErrorMessage
       case _ => GenericMessage)
    case None => ConnectionMessage
  }

  /** Only whether a response came back, and its status, decide the message; the body and `error.message` are ignored. */
  lemma OnlyStatusMatters(a: HttpError, b: HttpError)
    requires a.response.Some? == b.response.Some?
    requires a.response.Some? ==> a.response.value.status == b.response.value.status
    ensures HandleError(a) == HandleError(b)
  {
  }

  /** Statuses other than 404, 409, 400 and 500, including 401 and 403, get the generic message. */
  lemma OtherStatusesAreGeneric(e: HttpError)
    requires e.response.Some?
    ensures HandleError(e) == GenericMessage <==> e.response.value.status !in {404, 409, 400, 500}
  {
  }

  /**
   * Without a body message, both services give the same text for 409, 400 and 500; for 404,
   * 401 and 403 and for missing responses they differ.
   */
  lemma AgreesWithAuthService(e: HttpError)
    requires e.response.Some? && e.response.value.dataMessage.None?
    ensures e.response.value.status in {409, 400, 500} ==> HandleError(e) == AuthService.HandleError(e)
    ensures e.response.value.status in {404, 401, 403} ==> HandleError(e) != AuthService.HandleError(e)
  {
  }
}
