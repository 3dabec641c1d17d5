/** The CNAME handler as it runs: a client whose request and response it rewrites, a
    context updated along the recursive chase, proved to be the chase of CNameChains. */
module CNameHandler {
  import opened Dns
  import opened CNameChains

  class Client {
    var question: Question
    var response: Option<Message>

    constructor (question: Question)
      ensures this.question == question && response == None
    {
      this.question, response := question, None;
    }
  }

  /** The resolver below the handler, and what it was asked. */
  class Resolver {
    const oracle: (nat, Question) -> Option<Message>
    var asked: seq<Question>

    constructor (oracle: (nat, Question) -> Option<Message>)
      ensures this.oracle == oracle && asked == []
    {
      this.oracle, asked := oracle, [];
    }

    method Resolve(client: Client)
      modifies this, client
      ensures asked == old(asked) + [client.question] && client.question == old(client.question)
      ensures client.response == oracle(|old(asked)|, client.question)
    {
      client.response := oracle(|asked|, client.question);
      asked := asked + [client.question];
    }
  }

  class Context {
    const client: Client
    const originalQuestion: Question
    var redirectCount: nat
    var response: Message
    var namechain: seq<Name>

    /** `newCNameContext`. */
    constructor (client: Client, response: Message)
      ensures this.client == client && originalQuestion == client.question && redirectCount == 0
      ensures this.response == response && namechain == [client.question.name]
    {
      this.client, originalQuestion, redirectCount := client, client.question, 0;
      this.response, namechain := response, [client.question.name];
    }

    /** `makeRedirectQuery`; false is the "chain too long" error. */
    method MakeRedirectQuery() returns (ok: bool)
      requires namechain != []
      modifies this`redirectCount, client
      ensures redirectCount == old(redirectCount) + 1
      ensures ok <==> redirectCount <= MAX_REDIRECT_COUNT
      ensures ok ==> client.question == originalQuestion.(name := namechain[|namechain| - 1]) && client.response == None
      ensures !ok ==> client.question == old(client.question) && client.response == old(client.response)
    {
      redirectCount := redirectCount + 1;
      if redirectCount > MAX_REDIRECT_COUNT {
        return false;
      }
      client.response := None;
      client.question := Question(namechain[|namechain| - 1], originalQuestion.typ, originalQuestion.class_);
      ok := true;
    }

    /** `mergeResponse`: the answers are appended one by one, the rcode taken over. */
    method MergeResponse(m: Option<Message>)
      modifies this`response
      ensures response == if m.None? then old(response)
                          else old(response).(answers := old(response).answers + m.value.answers, rcode := m.value.rcode)
    {
      if m.None? {
        return;
      }
      var more := m.value.answers;
      for i := 0 to |more|
        invariant response == old(response).(answers := old(response).answers + more[..i])
      {
        response := response.(answers := response.answers + [more[i]]);
      }
      assert more[..|more|] == more;
      response := response.(rcode := m.value.rcode);
    }

    /** `addRedirect`; false is the "circle" error. */
    method AddRedirect(nextName: Name) returns (ok: bool)
      modifies this`namechain
      ensures ok <==> nextName !in old(namechain)
      ensures namechain == if ok then old(namechain) + [nextName] else old(namechain)
    {
      for i := 0 to |namechain|
        invariant nextName !in namechain[..i] && namechain == old(namechain)
      {
        if namechain[i] == nextName {
          return false;
        }
      }
      assert namechain[..|namechain|] == namechain;
      namechain := namechain + [nextName];
      ok := true;
    }

    /** `assembleFinalResponse`. */
    method AssembleFinalResponse()
      modifies this`response, client
      ensures client.question == originalQuestion
      ensures response == old(response).(question := originalQuestion) && client.response == Some(response)
    {
      client.question := originalQuestion;
      response := response.(question := originalQuestion);
      client.response := Some(response);
    }

    /** The resolution so far, given what was asked since it began. */
    ghost function At(asked: seq<Question>): Trail
      reads this
    {
      Trail(namechain, asked, response.answers, response.rcode)
    }
  }

  class Handler {
    const resolver: Resolver
    const checkCnameIndirect: bool

    constructor (resolver: Resolver, checkCnameIndirect: bool)
      ensures this.resolver == resolver && this.checkCnameIndirect == checkCnameIndirect
    {
      this.resolver, this.checkCnameIndirect := resolver, checkCnameIndirect;
    }

    /** What a response contributes once it is cut to its first answer. */
    function Cut(m: Message): Message {
      if checkCnameIndirect && |m.answers| > 0 then m.(answers := m.answers[..1]) else m
    }

    /** `followCNameChain`; base is what the resolver had been asked before. */
    method FollowCNameChain(ctx: Context, ghost base: seq<Question>)
      requires Counted(resolver.oracle) && ctx.namechain != [] && base <= resolver.asked
      modifies ctx, ctx.client, resolver
      ensures base <= resolver.asked && ctx.namechain != []
      ensures ctx.At(resolver.asked[|base|..]) ==
              Follow(Env(resolver.oracle, |base|, checkCnameIndirect), ctx.originalQuestion,
                     old(ctx.redirectCount), old(ctx.At(resolver.asked[|base|..])))
      decreases MAX_REDIRECT_COUNT - ctx.redirectCount
    {
      var ok := ctx.MakeRedirectQuery();
      if !ok {
        return;
      }
      var next := QueryOnce(ctx, base);
      if next.Some? {
        var added := ctx.AddRedirect(next.value);
        if added {
          FollowCNameChain(ctx, base);
        }
      }
    }

    /** The query in the middle of `followCNameChain`, its reply merged. */
    method QueryOnce(ctx: Context, ghost base: seq<Question>) returns (next: Option<Name>)
      requires Counted(resolver.oracle) && ctx.namechain != [] && base <= resolver.asked
      requires ctx.client.question == ctx.originalQuestion.(name := ctx.namechain[|ctx.namechain| - 1])
      modifies ctx`response, ctx.client, resolver
      ensures base <= resolver.asked
      ensures (ctx.At(resolver.asked[|base|..]), next) ==
              Query(Env(resolver.oracle, |base|, checkCnameIndirect), ctx.originalQuestion,
                    old(ctx.At(resolver.asked[|base|..])))
    {
      ghost var asked := resolver.asked[|base|..];
      resolver.Resolve(ctx.client);
      assert resolver.asked[|base|..] == asked + [ctx.client.question];
      var response := ctx.client.response;
      next := Redirect(checkCnameIndirect, response);
      if next.Some? {
        response := Some(Cut(response.value));
      }
      ctx.MergeResponse(response);
    }

    /** `Resolve`: without a redirect the client keeps its first response; with one it
        ends with its own question, and the answers and rcode of the whole chase. */
    method Resolve(client: Client)
      requires Counted(resolver.oracle)
      modifies client, resolver
      ensures client.question == old(client.question)
      ensures var env := Env(resolver.oracle, |old(resolver.asked)|, checkCnameIndirect);
              match Chase(env, old(client.question))
              case None =>
                && resolver.asked == old(resolver.asked) + [client.question]
                && client.response == resolver.oracle(|old(resolver.asked)|, client.question)
              case Some(t) =>
                && resolver.asked == old(resolver.asked) + t.asked
                && client.response.Some? && client.response.value.question == client.question
                && client.response.value.answers == t.answers && client.response.value.rcode == t.rcode
    {
      ghost var base := resolver.asked;
      resolver.Resolve(client);
      var next := Redirect(checkCnameIndirect, client.response);
      if next.Some? {
        ChaseFrom(client, next.value, base);
      }
    }

    /** The redirect branch of `Resolve`. */
    method ChaseFrom(client: Client, next: Name, ghost base: seq<Question>)
      requires Counted(resolver.oracle) && resolver.asked == base + [client.question]
      requires client.response == resolver.oracle(|base|, client.question)
      requires Redirect(checkCnameIndirect, client.response) == Some(next)
      modifies client, resolver
      ensures client.question == old(client.question) && client.response.Some? && base <= resolver.asked
      ensures var t := Follow(Env(resolver.oracle, |base|, checkCnameIndirect), client.question, 0,
                              Opening(Env(resolver.oracle, |base|, checkCnameIndirect), client.question).value);
              && resolver.asked == base + t.asked
              && client.response.value.question == client.question
              && client.response.value.answers == t.answers && client.response.value.rcode == t.rcode
    {
      ghost var q := client.question;
      assert resolver.asked[|base|..] == [q];
      var ctx := new Context(client, Cut(client.response.value));
      var _ := ctx.AddRedirect(next);
      assert ctx.At([q]) == Opening(Env(resolver.oracle, |base|, checkCnameIndirect), q).value;
      FollowCNameChain(ctx, base);
      ctx.AssembleFinalResponse();
      assert resolver.asked == base + resolver.asked[|base|..];
    }
  }
}
