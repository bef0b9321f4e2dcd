/**
 * The guarded training resolvers as the schema exposes them: `authorized_only` reads
 * the context's user, and only when a user came back does the resolver body run. The
 * body reads the context's user again to get the caller's id; that read is served from
 * the context's cache, so the identity provider is consulted at most once per request.
 */
module Resolvers {
  import opened Wrappers
  import opened Responses
  import opened Identity
  import opened Guard
  import opened Training

  /** The user id the resolver body works on, when the guard admits the request. */
  ghost function CallerId(a: Admission): string
    requires a.Admit?
  {
    a.user.id
  }

  /** Reading the user a second time, after the guard admitted it, gives the same user and asks no one. */
  method RereadUser(ctx: Context, ghost admitted: User) returns (user: User)
    requires ctx.cached == Some(admitted)
    modifies ctx
    ensures user == admitted
    ensures ctx.cached == old(ctx.cached) && ctx.providerCalls == old(ctx.providerCalls)
  {
    var again := ctx.GetUser();
    user := again.user.value;
  }

  /** `Query.start_training` under `authorized_only`. */
  method StartTraining(ctx: Context, store: TrainingStore) returns (o: Outcome)
    requires store.Valid()
    modifies ctx, store
    ensures store.Valid()
    ensures ctx.providerCalls ==
              old(ctx.providerCalls) + (if old(ctx.cached).None? && Token(ctx.authorization) != "" then 1 else 0)
    ensures ctx.cached ==
              (if old(ctx.cached).None? && old(ctx.Current()).Value? then old(ctx.Current()).user else old(ctx.cached))
    ensures var a := Screen(old(ctx.Current()));
            && (a.Reject? ==> o == a.outcome && store.progress == old(store.progress))
            && (a.Admit? ==>
                  var s := Start(old(store.progress), CallerId(a));
                  o == Returned(s.reply) && store.progress == s.table)
  {
    var res := ctx.GetUser();
    var a := Screen(res);
    if a.Reject? {
      return a.outcome;
    }
    var user := RereadUser(ctx, a.user);
    var r := store.StartTraining(user.id);
    o := Returned(r);
  }

  /** `Mutation.submit_answer` under `authorized_only`. */
  method SubmitAnswer(ctx: Context, store: TrainingStore, answer: string) returns (o: Outcome)
    requires store.Valid()
    modifies ctx, store
    ensures store.Valid()
    ensures ctx.providerCalls ==
              old(ctx.providerCalls) + (if old(ctx.cached).None? && Token(ctx.authorization) != "" then 1 else 0)
    ensures ctx.cached ==
              (if old(ctx.cached).None? && old(ctx.Current()).Value? then old(ctx.Current()).user else old(ctx.cached))
    ensures var a := Screen(old(ctx.Current()));
            && (a.Reject? ==> o == a.outcome && store.progress == old(store.progress))
            && (a.Admit? ==>
                  var s := Submit(old(store.progress), CallerId(a), answer);
                  o == Returned(s.reply) && store.progress == s.table)
  {
    var res := ctx.GetUser();
    var a := Screen(res);
    if a.Reject? {
      return a.outcome;
    }
    var user := RereadUser(ctx, a.user);
    var r := store.SubmitAnswer(user.id, answer);
    o := Returned(r);
  }

  /** `Mutation.stop_training` under `authorized_only`. */
  method StopTraining(ctx: Context, store: TrainingStore) returns (o: Outcome)
    requires store.Valid()
    modifies ctx, store
    ensures store.Valid()
    ensures ctx.providerCalls ==
              old(ctx.providerCalls) + (if old(ctx.cached).None? && Token(ctx.authorization) != "" then 1 else 0)
    ensures ctx.cached ==
              (if old(ctx.cached).None? && old(ctx.Current()).Value? then old(ctx.Current()).user else old(ctx.cached))
    ensures var a := Screen(old(ctx.Current()));
            && (a.Reject? ==> o == a.outcome && store.progress == old(store.progress))
            && (a.Admit? ==>
                  var s := Stop(old(store.progress), CallerId(a));
                  o == Returned(s.reply) && store.progress == s.table)
  {
    var res := ctx.GetUser();
    var a := Screen(res);
    if a.Reject? {
      return a.outcome;
    }
    var user := RereadUser(ctx, a.user);
    var r := store.StopTraining(user.id);
    o := Returned(r);
  }

  /** A request without a token changes no progress and never reaches the provider. */
  method UnauthenticatedSubmit(ctx: Context, store: TrainingStore, answer: string) returns (o: Outcome)
    requires ctx.authorization == None && ctx.cached == None
    requires store.Valid()
    modifies ctx, store
    ensures o == Returned(ErrorResponse(NoTokenMessage))
    ensures store.progress == old(store.progress)
    ensures ctx.providerCalls == old(ctx.providerCalls) && ctx.cached == None
  {
    o := SubmitAnswer(ctx, store, answer);
  }

  /**
   * Two guarded mutation fields in one request share its context. When the first
   * resolves a user, the provider is asked at most once and the second field works
   * on the same user's entry. A rejection the guard turns into an ErrorResponse is not
   * cached, so the second field reads again, may ask the provider a second time, and
   * is rejected the same way. An exception that escapes the first field ends the
   * operation: the second field does not run (`second` is None).
   */
  method SubmitThenStop(ctx: Context, store: TrainingStore, answer: string)
    returns (first: Outcome, second: Option<Outcome>)
    requires store.Valid()
    modifies ctx, store
    ensures store.Valid()
    ensures var a := Screen(old(ctx.Current()));
            a.Admit? ==>
              var s1 := Submit(old(store.progress), CallerId(a), answer);
              var s2 := Stop(s1.table, CallerId(a));
              && ctx.providerCalls <= old(ctx.providerCalls) + 1
              && ctx.cached == Some(a.user)
              && first == Returned(s1.reply)
              && second == Some(Returned(s2.reply))
              && store.progress == s2.table
    ensures var a := Screen(old(ctx.Current()));
            a.Reject? && a.outcome.Returned? ==>
              ctx.providerCalls <= old(ctx.providerCalls) + 2 &&
              first == a.outcome && second == Some(a.outcome) &&
              store.progress == old(store.progress)
    ensures var a := Screen(old(ctx.Current()));
            a.Reject? && a.outcome.Raised? ==>
              ctx.providerCalls <= old(ctx.providerCalls) + 1 &&
              first == a.outcome && second == None &&
              store.progress == old(store.progress)
  {
    first := SubmitAnswer(ctx, store, answer);
    if first.Raised? {
      return first, None;
    }
    var stopped := StopTraining(ctx, store);
    second := Some(stopped);
  }
}
