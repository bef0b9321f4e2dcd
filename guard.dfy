/**
 * The `authorized_only` decorator: it reads the context's user first and only runs
 * the wrapped resolver when a user came back. NoTokenException and Auth0Error are
 * caught and turned into an ErrorResponse, each with its own message; a missing
 * user gets a third message; any other exception (the IndexError of a `sub` without
 * `|`) is not caught and leaves the resolver.
 */
module Guard {
  import opened Wrappers
  import opened Responses
  import opened Identity

  /** What a decorated resolver does: return a response, or let an exception escape. */
  datatype Outcome = Returned(response: Response) | Raised(exception: Exception)

  /** The guard's decision: run the wrapped resolver for this user, or finish with this outcome. */
  datatype Admission = Admit(user: User) | Reject(outcome: Outcome)

  const UserNotFoundMessage: string := "Can't find user with given credentials"

  /** The guard's checks on the result of reading the context's user. */
  function Screen(res: Resolution): (a: Admission)
    ensures a.Admit? <==> res.Value? && res.user.Some?
    ensures a.Admit? ==> res.user == Some(a.user)
    ensures a.Reject? && a.outcome.Returned? ==> a.outcome.response.ErrorResponse?
    ensures a.Reject? && a.outcome.Raised? <==> res.Raise? && res.exception.IndexError?
    ensures a.Reject? && a.outcome.Raised? ==> a.outcome == Raised(res.exception)
  {
    match res
    case Raise(Auth0Error(repr)) => Reject(Returned(ErrorResponse(repr)))
    case Raise(NoTokenException(message)) => Reject(Returned(ErrorResponse(message)))
    case Raise(other) => Reject(Raised(other))
    case Value(None) => Reject(Returned(ErrorResponse(UserNotFoundMessage)))
    case Value(Some(user)) => Admit(user)
  }

  /** The three caught paths, with their messages. */
  lemma ScreenMessages(res: Resolution)
    ensures res.Raise? && res.exception.Auth0Error? ==>
              Screen(res) == Reject(Returned(ErrorResponse(res.exception.repr)))
    ensures res.Raise? && res.exception.NoTokenException? ==>
              Screen(res) == Reject(Returned(ErrorResponse(res.exception.message)))
    ensures res == Value(None) ==>
              Screen(res) == Reject(Returned(ErrorResponse(UserNotFoundMessage)))
  {
  }

  /** A missing token and a missing user are told apart: their messages differ. */
  lemma NoTokenDistinctFromNoUser()
    ensures Screen(Raise(NoTokenException(NoTokenMessage))) != Screen(Value(None))
  {
    assert NoTokenMessage[0] != UserNotFoundMessage[0];
  }

  /** `authorized_only(func)` applied to a resolver that answers for a user. */
  function AuthorizedOnly(res: Resolution, wrapped: User -> Response): (o: Outcome)
    ensures res.Value? && res.user.Some? ==> o == Returned(wrapped(res.user.value))
    ensures !(res.Value? && res.user.Some?) ==> o == Screen(res).outcome
  {
    match Screen(res)
    case Admit(user) => Returned(wrapped(user))
    case Reject(outcome) => outcome
  }

  /**
   * The wrapped resolver decides the outcome only when a user was resolved, and then
   * its answer is returned unchanged; on every other path it is not consulted.
   */
  lemma WrappedRunsOnlyForUser(res: Resolution, wrapped: User -> Response, other: User -> Response)
    ensures res.Value? && res.user.Some? ==> AuthorizedOnly(res, wrapped) == Returned(wrapped(res.user.value))
    ensures !(res.Value? && res.user.Some?) ==> AuthorizedOnly(res, wrapped) == AuthorizedOnly(res, other)
  {
  }

  /** A guarded resolver never raises, except for the IndexError it does not catch. */
  lemma OnlyIndexErrorEscapes(res: Resolution, wrapped: User -> Response)
    ensures AuthorizedOnly(res, wrapped).Raised? ==> AuthorizedOnly(res, wrapped) == Raised(IndexError)
  {
  }
}
