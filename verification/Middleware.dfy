/** The middleware chain of `srvhttp/router.go`.

    `Router.Use` wraps a handler in one closure that keeps a mutable `index` shared by every call to
    `next`.  This module runs that loop on a `Chain` object and relates it to the right fold of the
    middlewares around the handler, which is what nesting one wrapper per middleware would do. */
module Middleware {

  /** Everything a handler can reach through its `*Context`, apart from `ctx.rsp` and `ctx.err`. */
  type World(==, !new)
  type Value(==, !new)

  /** A `(response, error)` pair, as handlers return it and as `ctx.rsp`, `ctx.err` store it. */
  datatype Reply = Reply(rsp: Value, err: Value)

  datatype Ctx = Ctx(world: World, reply: Reply)

  /** The `http.Handler` that the chain ends in.  It may or may not assign `ctx.rsp` and `ctx.err`. */
  type Endpoint = Ctx -> Ctx

  /** What a middleware sees when `next` gives control back. */
  datatype Resumption = Resumption(reply: Reply, world: World)

  /** A middleware body cut at its calls to `next`: it returns, or it calls `next` and goes on with the
      row of `resume` for what `next` gave back.  Bodies are well founded, so every run of one makes
      finitely many calls, with no bound fixed beforehand.  A body without a row returns what it got. */
  datatype Body =
    | Return(reply: Reply, world: World)
    | CallNext(world: World, resume: imap<Resumption, Body>)

  type Middleware = World -> Body

  datatype Visit = Enter(position: nat) | Serve

  /** `reply` is what was returned, `ctx` what the context holds then, `visits` what ran, in order. */
  datatype Answer = Answer(reply: Reply, ctx: Ctx, visits: seq<Visit>)

  // ---------- The loop over the shared index ----------

  datatype Run = Run(answer: Answer, index: nat)

  /** One call of the chain's closure while the shared index is `index`. */
  ghost function Next(mds: seq<Middleware>, endpoint: Endpoint, index: nat, ctx: Ctx): (r: Run)
    requires index <= |mds|
    ensures index <= r.index <= |mds|
    decreases |mds| - index, 0
  {
    if index < |mds| then
      var r := Drive(mds, endpoint, mds[index](ctx.world), index + 1, ctx);
      r.(answer := r.answer.(visits := [Enter(index)] + r.answer.visits))
    else
      Run(Served(endpoint, ctx), index)
  }

  /** The rest of a middleware's body. */
  ghost function Drive(mds: seq<Middleware>, endpoint: Endpoint, body: Body, index: nat, ctx: Ctx): (r: Run)
    requires index <= |mds|
    ensures index <= r.index <= |mds|
    decreases |mds| - index, 1, body
  {
    match body
    case Return(reply, world) => Run(Answer(reply, ctx.(world := world), []), index)
    case CallNext(world, resume) =>
      var first := Next(mds, endpoint, index, ctx.(world := world));
      var key := Resumption(first.answer.reply, first.answer.ctx.world);
      if key in resume then
        var rest := Drive(mds, endpoint, resume[key], first.index, first.answer.ctx);
        rest.(answer := rest.answer.(visits := first.answer.visits + rest.answer.visits))
      else
        first
  }

  ghost function Served(endpoint: Endpoint, ctx: Ctx): Answer {
    var after := endpoint(ctx);
    Answer(after.reply, after, [Serve])
  }

  /** `Router.Use`: the loop from index 0, then `ctx.rsp, ctx.err` take its result. */
  ghost function Use(mds: seq<Middleware>, endpoint: Endpoint): Endpoint {
    if mds == [] then endpoint
    else ctx => var a := Next(mds, endpoint, 0, ctx).answer; Ctx(a.ctx.world, a.reply)
  }

  /** One request going through the handler that `Use` builds. */
  class Chain {
    const mds: seq<Middleware>
    const endpoint: Endpoint
    var index: nat
    var ctx: Ctx
    ghost var visits: seq<Visit>

    constructor (mds: seq<Middleware>, endpoint: Endpoint, ctx: Ctx)
      ensures this.mds == mds && this.endpoint == endpoint && this.ctx == ctx
      ensures index == 0 && visits == []
    {
      this.mds, this.endpoint, this.ctx := mds, endpoint, ctx;
      index, visits := 0, [];
    }

    /** The closure that every middleware is given as `next`. */
    method ChainHandler() returns (reply: Reply)
      requires index <= |mds|
      modifies this
      ensures index <= |mds|
      ensures Ran(Next(mds, endpoint, old(index), old(ctx)), reply, old(visits))
      decreases |mds| - index, 0
    {
      if index < |mds| {
        var middleware := mds[index];
        visits := visits + [Enter(index)];
        index := index + 1;
        reply := Proceed(middleware(ctx.world));
      } else {
        ctx := endpoint(ctx);
        visits := visits + [Serve];
        reply := ctx.reply;
      }
    }

    /** What a middleware does from one of its calls to `next`, or its start, to its return. */
    method Proceed(body: Body) returns (reply: Reply)
      requires index <= |mds|
      modifies this
      ensures index <= |mds|
      ensures Ran(Drive(mds, endpoint, body, old(index), old(ctx)), reply, old(visits))
      decreases |mds| - index, 1, body
    {
      match body
      case Return(result, world) =>
        ctx := ctx.(world := world);
        reply := result;
      case CallNext(world, resume) =>
        ctx := ctx.(world := world);
        reply := ChainHandler();
        var key := Resumption(reply, ctx.world);
        if key in resume {
          reply := Proceed(resume[key]);
        }
    }

    /** The object is as `r` says, and has added the visits of `r` to those of `before`. */
    ghost predicate Ran(r: Run, reply: Reply, before: seq<Visit>)
      reads this
    {
      reply == r.answer.reply && ctx == r.answer.ctx && index == r.index && visits == before + r.answer.visits
    }

    /** The handler function that `Use` registers. */
    method ServeHTTP()
      requires index == 0 && mds != []
      modifies this
      ensures ctx == Use(mds, endpoint)(old(ctx))
      ensures var a := Next(mds, endpoint, 0, old(ctx)).answer; ctx.reply == a.reply && ctx.world == a.ctx.world
      ensures visits == old(visits) + Next(mds, endpoint, 0, old(ctx)).answer.visits
    {
      var reply := ChainHandler();
      ctx := ctx.(reply := reply);
    }
  }

  // ---------- Any middlewares: the order of the visits ----------

  function Enters(from: nat, to: nat): (v: seq<Visit>)
    requires from <= to
    ensures |v| == to - from
    ensures forall i :: 0 <= i < |v| ==> v[i] == Enter(from + i)
  {
    seq(to - from, i requires 0 <= i => Enter(from + i))
  }

  function Serves(n: nat): (v: seq<Visit>)
    ensures |v| == n && forall i :: 0 <= i < n ==> v[i] == Serve
  {
    seq(n, _ => Serve)
  }

  /** The positions from `from` up to `to` in order, each once, and then only the inner handler, which is
      reached only once all `n` middlewares have been entered. */
  ghost predicate InOrder(visits: seq<Visit>, from: nat, to: nat, n: nat) {
    && from <= to <= n
    && to - from <= |visits|
    && visits == Enters(from, to) + Serves(|visits| - (to - from))
    && (to - from < |visits| ==> to == n)
  }

  lemma InOrderJoins(v: seq<Visit>, w: seq<Visit>, from: nat, mid: nat, to: nat, n: nat)
    requires InOrder(v, from, mid, n) && InOrder(w, mid, to, n)
    ensures InOrder(v + w, from, to, n)
  {
  }

  /** Whatever the middlewares do, and however often they call `next`, a call of the closure enters the
      middlewares from the shared index on, in order and each at most once; when the list is used up,
      further calls go straight to the inner handler. */
  lemma {:induction false} EachEnteredOnceInOrder(mds: seq<Middleware>, endpoint: Endpoint, index: nat, ctx: Ctx)
    requires index <= |mds|
    ensures var r := Next(mds, endpoint, index, ctx); InOrder(r.answer.visits, index, r.index, |mds|)
    decreases |mds| - index, 0
  {
    if index < |mds| {
      DriveInOrder(mds, endpoint, mds[index](ctx.world), index + 1, ctx);
      var r := Drive(mds, endpoint, mds[index](ctx.world), index + 1, ctx);
      InOrderJoins([Enter(index)], r.answer.visits, index, index + 1, r.index, |mds|);
    }
  }

  lemma {:induction false} DriveInOrder(mds: seq<Middleware>, endpoint: Endpoint, body: Body, index: nat, ctx: Ctx)
    requires index <= |mds|
    ensures var r := Drive(mds, endpoint, body, index, ctx); InOrder(r.answer.visits, index, r.index, |mds|)
    decreases |mds| - index, 1, body
  {
    match body
    case Return(_, _) =>
    case CallNext(world, resume) =>
      var first := Next(mds, endpoint, index, ctx.(world := world));
      EachEnteredOnceInOrder(mds, endpoint, index, ctx.(world := world));
      var key := Resumption(first.answer.reply, first.answer.ctx.world);
      if key in resume {
        DriveInOrder(mds, endpoint, resume[key], first.index, first.answer.ctx);
        var rest := Drive(mds, endpoint, resume[key], first.index, first.answer.ctx);
        InOrderJoins(first.answer.visits, rest.answer.visits, index, first.index, rest.index, |mds|);
      }
  }

  // ---------- The right fold ----------

  /** Middlewares nested one around the other: each call to `next` runs the rest of the list afresh.
      `k` is the position of the first of them. */
  ghost function Fold(mds: seq<Middleware>, k: nat, endpoint: Endpoint, ctx: Ctx): Answer
    decreases |mds|, 0
  {
    if mds == [] then
      Served(endpoint, ctx)
    else
      var a := Around(mds[0](ctx.world), mds[1..], k + 1, endpoint, ctx);
      a.(visits := [Enter(k)] + a.visits)
  }

  ghost function Around(body: Body, rest: seq<Middleware>, k: nat, endpoint: Endpoint, ctx: Ctx): Answer
    decreases |rest|, 1, body
  {
    match body
    case Return(reply, world) => Answer(reply, ctx.(world := world), [])
    case CallNext(world, resume) =>
      var first := Fold(rest, k, endpoint, ctx.(world := world));
      var key := Resumption(first.reply, first.ctx.world);
      if key in resume then
        var more := Around(resume[key], rest, k, endpoint, first.ctx);
        more.(visits := first.visits + more.visits)
      else
        first
  }

  ghost predicate NoneTwice(visits: seq<Visit>) {
    forall i, j :: 0 <= i < j < |visits| && visits[i] == visits[j] ==> visits[i] == Serve
  }

  lemma NoneTwiceParts(v: seq<Visit>, w: seq<Visit>)
    requires NoneTwice(v + w)
    ensures NoneTwice(v) && NoneTwice(w)
    ensures forall i, j :: 0 <= i < |v| && 0 <= j < |w| && v[i] == w[j] ==> v[i] == Serve
  {
    forall i, j | 0 <= i < |v| && 0 <= j < |w| && v[i] == w[j] ensures v[i] == Serve {
      assert (v + w)[i] == v[i] && (v + w)[|v| + j] == w[j];
    }
    forall i, j | 0 <= i < j < |v| && v[i] == v[j] ensures v[i] == Serve {
      assert (v + w)[i] == v[i] && (v + w)[j] == v[j];
    }
    forall i, j | 0 <= i < j < |w| && w[i] == w[j] ensures w[i] == Serve {
      assert (v + w)[|v| + i] == w[i] && (v + w)[|v| + j] == w[j];
    }
  }

  /** The loop does what the nested wrappers do, short circuits included, exactly on the runs in which
      the nested wrappers enter no middleware twice. */
  lemma LoopIsFoldExactlyWhen(mds: seq<Middleware>, endpoint: Endpoint, ctx: Ctx)
    ensures Next(mds, endpoint, 0, ctx).answer == Fold(mds, 0, endpoint, ctx)
            <==> NoneTwice(Fold(mds, 0, endpoint, ctx).visits)
  {
    EachEnteredOnceInOrder(mds, endpoint, 0, ctx);
    if NoneTwice(Fold(mds, 0, endpoint, ctx).visits) {
      assert mds[0..] == mds;
      LoopIsFold(mds, endpoint, 0, ctx);
    }
  }

  lemma {:induction false} LoopIsFold(mds: seq<Middleware>, endpoint: Endpoint, index: nat, ctx: Ctx)
    requires index <= |mds|
    requires NoneTwice(Fold(mds[index..], index, endpoint, ctx).visits)
    ensures Next(mds, endpoint, index, ctx).answer == Fold(mds[index..], index, endpoint, ctx)
    decreases |mds| - index, 0
  {
    if index < |mds| {
      var body, rest := mds[index](ctx.world), mds[index + 1..];
      assert mds[index..][1..] == rest;
      NoneTwiceParts([Enter(index)], Around(body, rest, index + 1, endpoint, ctx).visits);
      DriveIsAround(mds, endpoint, body, index + 1, ctx);
    }
  }

  /** A body whose first call to `next` starts at its own position. */
  lemma {:induction false} DriveIsAround(mds: seq<Middleware>, endpoint: Endpoint, body: Body, index: nat, ctx: Ctx)
    requires index <= |mds|
    requires NoneTwice(Around(body, mds[index..], index, endpoint, ctx).visits)
    ensures Drive(mds, endpoint, body, index, ctx).answer == Around(body, mds[index..], index, endpoint, ctx)
    decreases |mds| - index, 1, body
  {
    match body
    case Return(_, _) =>
    case CallNext(world, resume) =>
      var rest := mds[index..];
      var first := Fold(rest, index, endpoint, ctx.(world := world));
      var key := Resumption(first.reply, first.ctx.world);
      if key in resume {
        var more := Around(resume[key], rest, index, endpoint, first.ctx);
        NoneTwiceParts(first.visits, more.visits);
        LoopIsFold(mds, endpoint, index, ctx.(world := world));
        if index == |mds| {
          DriveIsAround(mds, endpoint, resume[key], index, first.ctx);
        } else {
          // `first` has entered `index`, so the body must not call `next` again.
          assert first.visits[0] == Enter(index);
          if resume[key].CallNext? {
            AroundReenters(resume[key], rest, index, endpoint, first.ctx);
            assert false;
          }
        }
      } else {
        LoopIsFold(mds, endpoint, index, ctx.(world := world));
      }
  }

  lemma AroundReenters(body: Body, rest: seq<Middleware>, k: nat, endpoint: Endpoint, ctx: Ctx)
    requires body.CallNext? && rest != []
    ensures var v := Around(body, rest, k, endpoint, ctx).visits; v != [] && v[0] == Enter(k)
  {
  }

  /** The body calls `next` at most once. */
  ghost predicate AtMostOnce(body: Body) {
    body.CallNext? ==> forall key :: key in body.resume ==> body.resume[key].Return?
  }

  lemma AroundOnce(body: Body, rest: seq<Middleware>, k: nat, endpoint: Endpoint, ctx: Ctx)
    requires body.CallNext? && AtMostOnce(body)
    ensures var first, whole := Fold(rest, k, endpoint, ctx.(world := body.world)), Around(body, rest, k, endpoint, ctx);
            var key := Resumption(first.reply, first.ctx.world);
            && whole.visits == first.visits
            && if key in body.resume
               then whole.reply == body.resume[key].reply && whole.ctx.world == body.resume[key].world
               else whole == first
  {
  }

  /** Every middleware but the last calls `next` at most once.  The last one may call it at will. */
  ghost predicate Polite(mds: seq<Middleware>) {
    forall i, world :: 0 <= i < |mds| - 1 ==> AtMostOnce(mds[i](world))
  }

  /** So for middlewares that call `next` at most once the loop is the right fold, on every request. */
  lemma PoliteLoopIsFold(mds: seq<Middleware>, endpoint: Endpoint, ctx: Ctx)
    requires Polite(mds)
    ensures Next(mds, endpoint, 0, ctx).answer == Fold(mds, 0, endpoint, ctx)
  {
    PoliteEntersOnce(mds, 0, endpoint, ctx);
    LoopIsFoldExactlyWhen(mds, endpoint, ctx);
  }

  lemma {:induction false} PoliteEntersOnce(mds: seq<Middleware>, k: nat, endpoint: Endpoint, ctx: Ctx)
    requires Polite(mds)
    ensures NoneTwice(Fold(mds, k, endpoint, ctx).visits)
    ensures forall v :: v in Fold(mds, k, endpoint, ctx).visits ==> v == Serve || k <= v.position
    decreases |mds|
  {
    if mds != [] {
      var body, rest := mds[0](ctx.world), mds[1..];
      assert Polite(rest) by {
        forall i, world | 0 <= i < |rest| - 1 ensures AtMostOnce(rest[i](world)) {
          assert AtMostOnce(mds[i + 1](world));
        }
      }
      if rest == [] {
        LastOnlyServes(body, k + 1, endpoint, ctx);
        var after := Around(body, rest, k + 1, endpoint, ctx).visits;
        assert forall i :: 0 <= i < |after| ==> after[i] in after;
      } else {
        assert AtMostOnce(mds[0](ctx.world));
        if body.CallNext? {
          AroundOnce(body, rest, k + 1, endpoint, ctx);
          PoliteEntersOnce(rest, k + 1, endpoint, ctx.(world := body.world));
        }
      }
    }
  }

  lemma {:induction false} LastOnlyServes(body: Body, k: nat, endpoint: Endpoint, ctx: Ctx)
    ensures forall v :: v in Around(body, [], k, endpoint, ctx).visits ==> v == Serve
    decreases body
  {
    match body
    case Return(_, _) =>
    case CallNext(world, resume) =>
      var first := Fold([], k, endpoint, ctx.(world := world));
      var key := Resumption(first.reply, first.ctx.world);
      if key in resume {
        LastOnlyServes(resume[key], k, endpoint, first.ctx);
      }
  }

  // ---------- One middleware in front of others ----------

  ghost predicate SameAnswer(mds: seq<Middleware>, endpoint: Endpoint, ctx: Ctx) {
    Next(mds, endpoint, 0, ctx).answer == Fold(mds, 0, endpoint, ctx)
  }

  /** What each call of a body to `next` gives back, in the loop. */
  ghost function LoopGives(mds: seq<Middleware>, endpoint: Endpoint, body: Body, index: nat, ctx: Ctx): seq<Resumption>
    requires index <= |mds|
    decreases body
  {
    match body
    case Return(_, _) => []
    case CallNext(world, resume) =>
      var first := Next(mds, endpoint, index, ctx.(world := world));
      var key := Resumption(first.answer.reply, first.answer.ctx.world);
      [key] + if key in resume then LoopGives(mds, endpoint, resume[key], first.index, first.answer.ctx) else []
  }

  /** The same for a body nested around others. */
  ghost function NestGives(body: Body, rest: seq<Middleware>, endpoint: Endpoint, ctx: Ctx): seq<Resumption>
    decreases body
  {
    match body
    case Return(_, _) => []
    case CallNext(world, resume) =>
      var first := Fold(rest, 1, endpoint, ctx.(world := world));
      var key := Resumption(first.reply, first.ctx.world);
      [key] + if key in resume then NestGives(resume[key], rest, endpoint, first.ctx) else []
  }

  /** In front of these others, the loop gives the middleware the same at each of its calls to `next` as nesting does. */
  ghost predicate GivesTheSame(md: Middleware, rest: seq<Middleware>, endpoint: Endpoint, ctx: Ctx) {
    LoopGives([md] + rest, endpoint, md(ctx.world), 1, ctx) == NestGives(md(ctx.world), rest, endpoint, ctx)
  }

  /** A middleware that is put in front of others gets from the loop what nesting would give it, for every handler,
      every request and all such others, exactly when it never calls `next` a second time. */
  lemma LoopIsNestingExactlyWhen(md: Middleware)
    ensures (forall rest, endpoint, ctx :: rest != [] && Polite(rest) ==> SameAnswer([md] + rest, endpoint, ctx))
            <==> forall world :: AtMostOnce(md(world))
  {
    if forall world :: AtMostOnce(md(world)) {
      forall rest, endpoint, ctx | rest != [] && Polite(rest) ensures SameAnswer([md] + rest, endpoint, ctx) {
        PoliteFirst(md, rest);
        PoliteLoopIsFold([md] + rest, endpoint, ctx);
      }
    } else {
      var world :| !AtMostOnce(md(world));
      var key :| key in md(world).resume && md(world).resume[key].CallNext?;
      var rest, endpoint, ctx := Answering(key), (c: Ctx) => c, Ctx(world, key.reply);
      var mds := [md] + rest;
      var body := md(world);
      assert mds[0] == md && mds[1..] == rest;
      AnswersOnce(key, 1, endpoint, Ctx(body.world, key.reply));
      AroundReenters(body.resume[key], rest, 1, endpoint, Ctx(key.world, key.reply));
      var more := Around(body.resume[key], rest, 1, endpoint, Ctx(key.world, key.reply)).visits;
      assert Fold(mds, 0, endpoint, ctx).visits == [Enter(0)] + ([Enter(1)] + more);
      assert ([Enter(0)] + ([Enter(1)] + more))[1] == ([Enter(0)] + ([Enter(1)] + more))[2];
      LoopIsFoldExactlyWhen(mds, endpoint, ctx);
      assert Polite(rest) && !SameAnswer(mds, endpoint, ctx);
    }
  }

  /** The same holds of what its calls to `next` give back, which is all that it can see of the others, as soon as there
      are two replies to tell apart. */
  lemma GivesTheSameExactlyWhen(md: Middleware, u: Reply, v: Reply)
    requires u != v
    ensures (forall rest, endpoint, ctx :: rest != [] && Polite(rest) ==> GivesTheSame(md, rest, endpoint, ctx))
            <==> forall world :: AtMostOnce(md(world))
  {
    if forall world :: AtMostOnce(md(world)) {
      forall rest, endpoint, ctx | rest != [] && Polite(rest) ensures GivesTheSame(md, rest, endpoint, ctx) {
        OneCallGivesTheSame(md, rest, endpoint, ctx);
      }
    } else {
      var world :| !AtMostOnce(md(world));
      var key :| key in md(world).resume && md(world).resume[key].CallNext?;
      var other := if key.reply == u then v else u;
      var endpoint, ctx := (c: Ctx) => c.(reply := other), Ctx(world, u);
      LoopGivesHandler(md, world, key, endpoint, other, u);
      NestGivesAnswer(md, world, key, endpoint, u);
      assert !GivesTheSame(md, Answering(key), endpoint, ctx);
    }
  }

  lemma OneCallGivesTheSame(md: Middleware, rest: seq<Middleware>, endpoint: Endpoint, ctx: Ctx)
    requires Polite(rest) && AtMostOnce(md(ctx.world))
    ensures GivesTheSame(md, rest, endpoint, ctx)
  {
    var body, mds := md(ctx.world), [md] + rest;
    if body.CallNext? {
      assert mds[1..] == rest;
      PoliteEntersOnce(rest, 1, endpoint, ctx.(world := body.world));
      LoopIsFold(mds, endpoint, 1, ctx.(world := body.world));
    }
  }

  /** The second call reaches the handler in the loop ... */
  lemma LoopGivesHandler(md: Middleware, world: World, key: Resumption, endpoint: Endpoint, v: Reply, u: Reply)
    requires md(world).CallNext? && key in md(world).resume && md(world).resume[key].CallNext?
    requires forall c :: endpoint(c) == c.(reply := v)
    ensures var gives := LoopGives([md] + Answering(key), endpoint, md(world), 1, Ctx(world, u));
            |gives| >= 2 && gives[0] == key && gives[1].reply == v
  {
    var mds, body := [md] + Answering(key), md(world);
    AnswersOnceInLoop(mds, key, endpoint, Ctx(body.world, u));
    assert LoopGives(mds, endpoint, body, 1, Ctx(world, u))
           == [key] + LoopGives(mds, endpoint, body.resume[key], 2, Ctx(key.world, u));
  }

  lemma AnswersOnceInLoop(mds: seq<Middleware>, key: Resumption, endpoint: Endpoint, ctx: Ctx)
    requires |mds| == 2 && mds[1] == Answering(key)[0]
    ensures Next(mds, endpoint, 1, ctx) == Run(Answer(key.reply, ctx.(world := key.world), [Enter(1)]), 2)
  {
    assert mds[1](ctx.world) == Return(key.reply, key.world);
    assert Drive(mds, endpoint, Return(key.reply, key.world), 2, ctx)
           == Run(Answer(key.reply, ctx.(world := key.world), []), 2);
  }

  /** ... and the others once more when nested. */
  lemma NestGivesAnswer(md: Middleware, world: World, key: Resumption, endpoint: Endpoint, u: Reply)
    requires md(world).CallNext? && key in md(world).resume && md(world).resume[key].CallNext?
    ensures var gives := NestGives(md(world), Answering(key), endpoint, Ctx(world, u));
            |gives| >= 2 && gives[0] == key && gives[1] == key
  {
    var body := md(world);
    AnswersOnce(key, 1, endpoint, Ctx(body.world, u));
    AnswersOnce(key, 1, endpoint, Ctx(body.resume[key].world, u));
    assert NestGives(body, Answering(key), endpoint, Ctx(world, u))
           == [key] + NestGives(body.resume[key], Answering(key), endpoint, Ctx(key.world, u));
  }

  /** One middleware that answers by itself. */
  function Answering(key: Resumption): (rest: seq<Middleware>)
    ensures |rest| == 1
  {
    [_ => Return(key.reply, key.world)]
  }

  lemma AnswersOnce(key: Resumption, k: nat, endpoint: Endpoint, ctx: Ctx)
    ensures Fold(Answering(key), k, endpoint, ctx) == Answer(key.reply, ctx.(world := key.world), [Enter(k)])
  {
    assert Answering(key)[0](ctx.world) == Return(key.reply, key.world);
  }

  lemma PoliteFirst(md: Middleware, rest: seq<Middleware>)
    requires Polite(rest) && forall world :: AtMostOnce(md(world))
    ensures Polite([md] + rest)
  {
    var mds := [md] + rest;
    forall i, world | 0 <= i < |mds| - 1 ensures AtMostOnce(mds[i](world)) {
      if i > 0 {
        assert mds[i] == rest[i - 1] && AtMostOnce(rest[i - 1](world));
      }
    }
  }

  // ---------- Splitting one `Use` in two ----------

  /** `Use(a..., b...)` leaves the context as `Use(a...)` followed by `Use(b...)` does, when no middleware of the first
      list calls `next` a second time; those of the other list may. */
  lemma UseSplits(a: seq<Middleware>, b: seq<Middleware>, endpoint: Endpoint, ctx: Ctx)
    requires forall i, world :: 0 <= i < |a| ==> AtMostOnce(a[i](world))
    ensures Use(a + b, endpoint)(ctx) == Use(a, Use(b, endpoint))(ctx)
  {
    if a == [] {
      assert a + b == b;
    } else if b == [] {
      assert a + b == a;
    } else {
      var inner := Use(b, endpoint);
      assert forall c :: RunsAs(b, endpoint, inner, c);
      NextSplits(a, b, endpoint, inner, 0, ctx);
      assert (a + b) != [];
    }
  }

  /** The handler does to a context what the list does around the endpoint. */
  ghost predicate RunsAs(b: seq<Middleware>, endpoint: Endpoint, inner: Endpoint, ctx: Ctx) {
    var r := Next(b, endpoint, 0, ctx).answer;
    inner(ctx) == Ctx(r.ctx.world, r.reply)
  }

  lemma {:induction false} NextSplits(a: seq<Middleware>, b: seq<Middleware>, endpoint: Endpoint, inner: Endpoint,
                                      i: nat, ctx: Ctx)
    requires i <= |a| && forall k, world :: 0 <= k < |a| ==> AtMostOnce(a[k](world))
    requires forall c :: RunsAs(b, endpoint, inner, c)
    ensures var whole, split := Next(a + b, endpoint, i, ctx).answer, Next(a, inner, i, ctx).answer;
            whole.reply == split.reply && whole.ctx.world == split.ctx.world
    decreases |a| - i
  {
    if i == |a| {
      NextShifts(a, b, endpoint, 0, ctx);
      assert RunsAs(b, endpoint, inner, ctx);
    } else {
      var body := a[i](ctx.world);
      assert (a + b)[i] == a[i] && AtMostOnce(body);
      if body.CallNext? {
        var at := ctx.(world := body.world);
        NextSplits(a, b, endpoint, inner, i + 1, at);
        DriveOnce(a + b, endpoint, body, i + 1, ctx);
        DriveOnce(a, inner, body, i + 1, ctx);
      }
    }
  }

  lemma DriveOnce(mds: seq<Middleware>, endpoint: Endpoint, body: Body, index: nat, ctx: Ctx)
    requires index <= |mds| && body.CallNext? && AtMostOnce(body)
    ensures var first := Next(mds, endpoint, index, ctx.(world := body.world)).answer;
            var whole := Drive(mds, endpoint, body, index, ctx).answer;
            var key := Resumption(first.reply, first.ctx.world);
            if key in body.resume
            then whole.reply == body.resume[key].reply && whole.ctx.world == body.resume[key].world
            else whole.reply == first.reply && whole.ctx.world == first.ctx.world
  {
  }

  /** What stands before the index plays no part. */
  lemma {:induction false} NextShifts(a: seq<Middleware>, b: seq<Middleware>, endpoint: Endpoint, j: nat, ctx: Ctx)
    requires j <= |b|
    ensures Shifted(Next(a + b, endpoint, |a| + j, ctx), Next(b, endpoint, j, ctx), |a|)
    decreases |b| - j, 0
  {
    if j < |b| {
      assert (a + b)[|a| + j] == b[j];
      DriveShifts(a, b, endpoint, b[j](ctx.world), j + 1, ctx);
    }
  }

  lemma {:induction false} DriveShifts(a: seq<Middleware>, b: seq<Middleware>, endpoint: Endpoint, body: Body, j: nat,
                                       ctx: Ctx)
    requires j <= |b|
    ensures Shifted(Drive(a + b, endpoint, body, |a| + j, ctx), Drive(b, endpoint, body, j, ctx), |a|)
    decreases |b| - j, 1, body
  {
    if body.CallNext? {
      NextShifts(a, b, endpoint, j, ctx.(world := body.world));
      var first := Next(b, endpoint, j, ctx.(world := body.world));
      var key := Resumption(first.answer.reply, first.answer.ctx.world);
      if key in body.resume {
        DriveShifts(a, b, endpoint, body.resume[key], first.index, first.answer.ctx);
      }
    }
  }

  ghost predicate Shifted(x: Run, y: Run, before: nat) {
    x.answer.reply == y.answer.reply && x.answer.ctx == y.answer.ctx && x.index == before + y.index
  }

  /** Put before `Use(b...)`, or into one `Use` with them, the middleware gets the same from each call to `next`. */
  ghost predicate SplitGivesTheSame(md: Middleware, b: seq<Middleware>, endpoint: Endpoint, ctx: Ctx) {
    LoopGives([md] + b, endpoint, md(ctx.world), 1, ctx) == LoopGives([md], Use(b, endpoint), md(ctx.world), 1, ctx)
  }

  /** A middleware cannot tell one `Use` from two, whatever follows it and for every handler and request, exactly when it
      never calls `next` a second time. */
  lemma SplitExactlyWhen(md: Middleware, u: Reply, v: Reply)
    requires u != v
    ensures (forall b, endpoint, ctx :: SplitGivesTheSame(md, b, endpoint, ctx)) <==> forall world :: AtMostOnce(md(world))
  {
    if forall world :: AtMostOnce(md(world)) {
      forall b, endpoint, ctx ensures SplitGivesTheSame(md, b, endpoint, ctx) {
        OneCallSplits(md, b, endpoint, ctx);
      }
    } else {
      var world :| !AtMostOnce(md(world));
      var key :| key in md(world).resume && md(world).resume[key].CallNext?;
      var other := if key.reply == u then v else u;
      var endpoint, ctx := (c: Ctx) => c.(reply := other), Ctx(world, u);
      LoopGivesHandler(md, world, key, endpoint, other, u);
      SplitGivesAnswer(md, world, key, endpoint, u);
      assert !SplitGivesTheSame(md, Answering(key), endpoint, ctx);
    }
  }

  lemma OneCallSplits(md: Middleware, b: seq<Middleware>, endpoint: Endpoint, ctx: Ctx)
    requires AtMostOnce(md(ctx.world))
    ensures SplitGivesTheSame(md, b, endpoint, ctx)
  {
    var body := md(ctx.world);
    if body.CallNext? {
      NextShifts([md], b, endpoint, 0, ctx.(world := body.world));
    }
  }

  lemma SplitGivesAnswer(md: Middleware, world: World, key: Resumption, endpoint: Endpoint, u: Reply)
    requires md(world).CallNext? && key in md(world).resume && md(world).resume[key].CallNext?
    ensures var gives := LoopGives([md], Use(Answering(key), endpoint), md(world), 1, Ctx(world, u));
            |gives| >= 2 && gives[0] == key && gives[1] == key
  {
    var body, inner, b := md(world), Use(Answering(key), endpoint), Answering(key);
    var again := body.resume[key];
    AnswersAsHandler(key, endpoint, Ctx(body.world, u));
    AnswersAsHandler(key, endpoint, Ctx(again.world, key.reply));
    assert Next([md], inner, 1, Ctx(body.world, u)) == Run(Answer(key.reply, Ctx(key.world, key.reply), [Serve]), 1);
    assert LoopGives([md], inner, body, 1, Ctx(world, u)) == [key] + LoopGives([md], inner, again, 1, Ctx(key.world, key.reply));
  }

  lemma AnswersAsHandler(key: Resumption, endpoint: Endpoint, ctx: Ctx)
    ensures Use(Answering(key), endpoint)(ctx) == Ctx(key.world, key.reply)
  {
    var b := Answering(key);
    assert b[0](ctx.world) == Return(key.reply, key.world);
    assert Drive(b, endpoint, Return(key.reply, key.world), 1, ctx) == Run(Answer(key.reply, ctx.(world := key.world), []), 1);
  }

  /** A middleware that calls `next` twice. */
  ghost function Twice(): Middleware {
    world => CallNext(world, imap r: Resumption :: CallNext(r.world, imap[]))
  }

  /** The request is answered differently by one `Use` and by two. */
  ghost predicate SplitDiffers(md: Middleware, b: seq<Middleware>, endpoint: Endpoint, ctx: Ctx) {
    Use([md] + b, endpoint)(ctx).reply != Use([md], Use(b, endpoint))(ctx).reply
  }

  /** With such a middleware in the first list the two differ: together, its second call goes past the second list, to
      the handler. */
  lemma SplitFailsWhenTwice(world: World, endpoint: Endpoint, u: Reply, v: Reply)
    requires u != v && forall c :: endpoint(c) == c.(reply := v)
    ensures SplitDiffers(Twice(), Answering(Resumption(u, world)), endpoint, Ctx(world, u))
  {
    TogetherSkips(world, endpoint, u, v);
    SeparateRepeats(world, endpoint, u);
    DiffersBy(Twice(), Answering(Resumption(u, world)), endpoint, Ctx(world, u), v, u);
  }

  lemma DiffersBy(md: Middleware, b: seq<Middleware>, endpoint: Endpoint, ctx: Ctx, v: Reply, u: Reply)
    requires b != [] && u != v
    requires Next([md] + b, endpoint, 0, ctx).answer.reply == v
    requires Next([md], Use(b, endpoint), 0, ctx).answer.reply == u
    ensures SplitDiffers(md, b, endpoint, ctx)
  {
  }

  lemma TogetherSkips(world: World, endpoint: Endpoint, u: Reply, v: Reply)
    requires forall c :: endpoint(c) == c.(reply := v)
    ensures Next([Twice()] + Answering(Resumption(u, world)), endpoint, 0, Ctx(world, u)).answer.reply == v
  {
    var mds, ctx, key := [Twice()] + Answering(Resumption(u, world)), Ctx(world, u), Resumption(u, world);
    var again := CallNext(world, imap[]);
    assert Twice()(world).resume[key] == again;
    AnswersOnceInLoop(mds, key, endpoint, ctx);
    assert Next(mds, endpoint, 2, ctx).answer.reply == v;
    assert Drive(mds, endpoint, again, 2, ctx).answer.reply == v;
  }

  lemma SeparateRepeats(world: World, endpoint: Endpoint, u: Reply)
    ensures Next([Twice()], Use(Answering(Resumption(u, world)), endpoint), 0, Ctx(world, u)).answer.reply == u
  {
    var ctx, key := Ctx(world, u), Resumption(u, world);
    var inner, again := Use(Answering(key), endpoint), CallNext(world, imap[]);
    assert Twice()(world).resume[key] == again;
    AnswersAsHandler(key, endpoint, ctx);
    assert Next([Twice()], inner, 1, ctx) == Run(Answer(u, ctx, [Serve]), 1);
    assert Drive([Twice()], inner, again, 1, ctx).answer.reply == u;
  }

  /** A middleware that calls `next` twice does not get the rest of the chain twice: with a second
      middleware after it that just passes on, the loop enters that one once and the fold twice. */
  lemma SecondCallSkipsTheRest(endpoint: Endpoint, ctx: Ctx)
    ensures exists mds: seq<Middleware> ::
              && Next(mds, endpoint, 0, ctx).answer.visits == [Enter(0), Enter(1), Serve, Serve]
              && Fold(mds, 0, endpoint, ctx).visits == [Enter(0), Enter(1), Serve, Enter(1), Serve]
  {
    var pass: Middleware := world => CallNext(world, imap[]);
    var twice := Twice();
    var mds := [twice, pass];
    var mid := endpoint(ctx);
    var key := Resumption(mid.reply, mid.world);
    var again := CallNext(mid.world, imap[]);
    assert ctx.(world := ctx.world) == ctx && mid.(world := mid.world) == mid;
    assert pass(ctx.world) == CallNext(ctx.world, imap[]);
    // the loop
    assert Next(mds, endpoint, 2, ctx) == Run(Answer(mid.reply, mid, [Serve]), 2);
    assert Drive(mds, endpoint, pass(ctx.world), 2, ctx) == Run(Answer(mid.reply, mid, [Serve]), 2);
    assert Next(mds, endpoint, 1, ctx) == Run(Answer(mid.reply, mid, [Enter(1), Serve]), 2);
    assert Drive(mds, endpoint, again, 2, mid).answer.visits == [Serve];
    assert twice(ctx.world).resume[key] == again;
    assert Drive(mds, endpoint, twice(ctx.world), 1, ctx).answer.visits == [Enter(1), Serve] + [Serve];
    assert Next(mds, endpoint, 0, ctx).answer.visits == [Enter(0), Enter(1), Serve, Serve];
    // the fold
    assert mds[1..] == [pass] && [pass][1..] == [];
    assert Fold([], 2, endpoint, ctx) == Answer(mid.reply, mid, [Serve]);
    assert Fold([pass], 1, endpoint, ctx) == Answer(mid.reply, mid, [Enter(1), Serve]);
    assert Around(pass(mid.world), [], 2, endpoint, mid).visits == [Serve];
    assert Fold([pass], 1, endpoint, mid).visits == [Enter(1), Serve];
    assert Around(again, [pass], 1, endpoint, mid).visits == [Enter(1), Serve];
    assert Around(twice(ctx.world), [pass], 1, endpoint, ctx).visits == [Enter(1), Serve] + [Enter(1), Serve];
    assert Fold(mds, 0, endpoint, ctx).visits == [Enter(0), Enter(1), Serve, Enter(1), Serve];
  }
}
