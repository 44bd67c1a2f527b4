/**
 * The authentication service (src/services/authService.ts): the classification of a failed
 * request into a message, and the session kept under the `token` and `user` keys of the
 * browser's storage, here a map from keys to stored strings.
 */
module AuthService {
  import opened Wrappers
  import opened Text
  import opened HttpErrors

  const NotFoundMessage := "Usuário não encontrado ou credenciais inválidas"
  const ConflictMessage := "Email já está em uso"
  const BadRequestMessage := "Dados inválidos"
  const UnauthorizedMessage := "Credenciais inválidas"
  const ForbiddenMessage := "Acesso não autorizado"
  const ServerErrorMessage := "Erro no servidor"
  const NoResponseMessage := "Sem resposta do servidor. Verifique sua conexão."
  const UnexpectedPrefix := "Erro inesperado ("
  const ConnectionPrefix := "Erro na conexão: "
  const MissingCredentialsMessage := "E-mail e senha são obrigatórios"

  /** The statuses with a fixed message. */
  function StatusMessage(status: int): Option<string>
  {
    match status
    case 404 => Some(NotFoundMessage)
    case 409 => Some(ConflictMessage)
    case 400 => Some(BadRequestMessage)
    case 401 => Some(UnauthorizedMessage)
    case 403 => Some(ForbiddenMessage)
    case 500 => Some(ServerErrorMessage)
    case _ => None
  }

  /** `Erro inesperado (${status})`. */
  function UnexpectedMessage(status: int): string
  {
    UnexpectedPrefix + IntToString(status) + ")"
  }

  /** `_handleError`: the message of the error it returns. */
  function HandleError(e: HttpError): string
  {
    match e.response
    case Some(r) =>
      if r.dataMessage.Some? && r.dataMessage.value != "" then r.dataMessage.value
      else if StatusMessage(r.status).Some? then StatusMessage(r.status).value
      else UnexpectedMessage(r.status)
    case None =>
      if e.hasRequest then NoResponseMessage else ConnectionPrefix + e.message
  }

  /** A message in the response body wins over the status, whatever the status is. */
  lemma BodyMessageTakesPrecedence(status: int, other: int, message: string, hasRequest: bool, text: string)
    requires message != ""
    ensures HandleError(HttpError(Some(ErrorResponse(status, Some(message))), hasRequest, text))
         == HandleError(HttpError(Some(ErrorResponse(other, Some(message))), false, ""))
         == message
  {
  }

  /** The six fixed messages are pairwise different, so each names one status. */
  lemma StatusMessagesDistinct(a: int, b: int)
    requires StatusMessage(a).Some? && StatusMessage(a) == StatusMessage(b)
    ensures a == b
  {
  }

  /** For a status without a fixed message, the number can be read back from the message. */
  lemma UnexpectedMessageNamesStatus(status: int)
    ensures var m := UnexpectedMessage(status);
      |m| > |UnexpectedPrefix| + 1 && m[..|UnexpectedPrefix|] == UnexpectedPrefix
      && m[|m| - 1] == ')'
      && ParseInt(m[|UnexpectedPrefix|..|m| - 1]) == Some(status)
  {
    var m := UnexpectedMessage(status);
    assert m[|UnexpectedPrefix|..|m| - 1] == IntToString(status);
    ParseIntOfIntToString(status);
  }

  /** Two different unexpected statuses give two different messages. */
  lemma UnexpectedMessagesDistinct(a: int, b: int)
    requires UnexpectedMessage(a) == UnexpectedMessage(b)
    ensures a == b
  {
    UnexpectedMessageNamesStatus(a);
    UnexpectedMessageNamesStatus(b);
  }

  /** Without a response the message only depends on whether a request went out, and on `error.message`. */
  lemma NoResponseCases(e: HttpError)
    requires e.response.None?
    ensures e.hasRequest ==> HandleError(e) == NoResponseMessage
    ensures !e.hasRequest ==> HandleError(e) == ConnectionPrefix + e.message
    ensures !e.hasRequest ==> HandleError(e)[|ConnectionPrefix|..] == e.message
  {
  }

  /** The error `login` raises itself for an empty e-mail or password goes through the same classification. */
  lemma MissingCredentialsText()
    ensures HandleError(PlainError(MissingCredentialsMessage)) == ConnectionPrefix + MissingCredentialsMessage
    ensures HandleError(PlainError(MissingCredentialsMessage)) != MissingCredentialsMessage
  {
    assert |ConnectionPrefix| > 0;
  }

  const TokenKey := "token"
  const UserKey := "user"

  /** `localStorage.getItem(key)`. */
  function GetItem(store: map<string, string>, key: string): Option<string>
  {
    if key in store then Some(store[key]) else None
  }

  /** `getToken`. */
  function GetToken(store: map<string, string>): Option<string>
  {
    GetItem(store, TokenKey)
  }

  /** `isAuthenticated`: a stored, non-empty token. */
  function IsAuthenticated(store: map<string, string>): bool
  {
    GetToken(store).Some? && GetToken(store).value != ""
  }

  /** `getCurrentUser`: the stored user text when it is non-empty; its parsing is not modelled. */
  function GetCurrentUser(store: map<string, string>): Option<string>
  {
    match GetItem(store, UserKey)
    case Some(u) => if u != "" then Some(u) else None
    case None => None
  }

  /** The store after `logout`. */
  function SignedOut(store: map<string, string>): map<string, string>
  {
    store - {TokenKey, UserKey}
  }

  /** The store after the writes of a successful `login`. */
  function SignedIn(store: map<string, string>, token: string, user: string): map<string, string>
  {
    SignedOut(store)[TokenKey := token][UserKey := user]
  }

  /** Keys other than the session's are never touched. */
  ghost predicate OthersUnchanged(before: map<string, string>, after: map<string, string>)
  {
    forall k :: k != TokenKey && k != UserKey ==> GetItem(after, k) == GetItem(before, k)
  }

  /** After `logout` nobody is signed in, there is no token and no user, and nothing else changed. */
  lemma LogoutSignsOut(store: map<string, string>)
    ensures !IsAuthenticated(SignedOut(store))
    ensures GetToken(SignedOut(store)).None? && GetCurrentUser(SignedOut(store)).None?
    ensures OthersUnchanged(store, SignedOut(store))
  {
  }

  /** After a successful `login` the store holds the received token and user, and nothing else changed. */
  lemma LoginSignsIn(store: map<string, string>, token: string, user: string)
    ensures GetToken(SignedIn(store, token, user)) == Some(token)
    ensures GetItem(SignedIn(store, token, user), UserKey) == Some(user)
    ensures IsAuthenticated(SignedIn(store, token, user)) <==> token != ""
    ensures OthersUnchanged(store, SignedIn(store, token, user))
  {
  }

  /** Logging out after logging in leaves what logging out alone would have left. */
  lemma LogoutUndoesLogin(store: map<string, string>, token: string, user: string)
    ensures SignedOut(SignedIn(store, token, user)) == SignedOut(store)
  {
    assert TokenKey != UserKey;
  }

  /** `response.data` of a successful login: the token and the (serialised) user. */
  datatype AuthResponse = AuthResponse(token: string, user: string)

  /** The browser storage the service reads and writes. */
  class AuthSession {
    var storage: map<string, string>

    constructor (initial: map<string, string>)
      ensures storage == initial
    {
      storage := initial;
    }

    /**
     * `login`, given the outcome of the request it would send: an empty e-mail or password
     * fails before any request; a failure is classified by `_handleError`.
     */
    method Login(email: string, password: string, reply: Result<AuthResponse, HttpError>) returns (r: Result<AuthResponse, string>)
      modifies this
      ensures email == "" || password == "" ==>
        r == Failure(HandleError(PlainError(MissingCredentialsMessage))) && storage == old(storage)
      ensures email != "" && password != "" && reply.Failure? ==>
        r == Failure(HandleError(reply.error)) && storage == old(storage)
      ensures email != "" && password != "" && reply.Success? ==>
        r == Success(reply.value) && storage == SignedIn(old(storage), reply.value.token, reply.value.user)
    {
      if email == "" || password == "" {
        return Failure(HandleError(PlainError(MissingCredentialsMessage)));
      }
      match reply {
        case Failure(e) =>
          r := Failure(HandleError(e));
        case Success(data) =>
          storage := storage - {TokenKey};
          storage := storage - {UserKey};
          storage := storage[TokenKey := data.token];
          storage := storage[UserKey := data.user];
          assert storage == SignedIn(old(storage), data.token, data.user);
          r := Success(data);
      }
    }

    /** `logout`. */
    method Logout()
      modifies this
      ensures storage == SignedOut(old(storage))
    {
      storage := storage - {TokenKey};
      storage := storage - {UserKey};
    }
  }
}
