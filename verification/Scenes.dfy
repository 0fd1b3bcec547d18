/** Block-structured command streams, and what their scopes give to each primitive. */
module Scenes {
  import opened Common
  import opened StateCache

  datatype Scope = Frame | World | Attributes | Transform

  /** A command and what follows it; a block has its contents as a part of its own. */
  datatype Scene<A, X> =
    | Empty
    | SetA(attribs: A, next: Scene<A, X>)
    | SetX(xform: X, next: Scene<A, X>)
    | Primitive(next: Scene<A, X>)
    | Block(scope: Scope, body: Scene<A, X>, next: Scene<A, X>)

  function Begin<A, X>(scope: Scope): Command<A, X> {
    match scope
    case Frame => FrameBegin
    case World => WorldBegin
    case Attributes => AttributeBegin
    case Transform => TransformBegin
  }

  function End<A, X>(scope: Scope): Command<A, X> {
    match scope
    case Frame => FrameEnd
    case World => WorldEnd
    case Attributes => AttributeEnd
    case Transform => TransformEnd
  }

  function Commands<A, X>(s: Scene<A, X>): seq<Command<A, X>> {
    match s
    case Empty => []
    case SetA(a, next) => [SetAttributes(a)] + Commands(next)
    case SetX(x, next) => [SetTransform(x)] + Commands(next)
    case Primitive(next) => [Insert] + Commands(next)
    case Block(scope, body, next) => [Begin(scope)] + Commands(body) + [End(scope)] + Commands(next)
  }

  // ---------- scoping, without any stack ----------

  /** The attributes in force after the scene: only a transform block lets those set inside it out. */
  function LastA<A, X>(s: Scene<A, X>, a: A): A {
    match s
    case Empty => a
    case SetA(v, next) => LastA(next, v)
    case SetX(_, next) => LastA(next, a)
    case Primitive(next) => LastA(next, a)
    case Block(scope, body, next) => LastA(next, if scope.Transform? then LastA(body, a) else a)
  }

  /** The transform in force after it: no block lets one out. */
  function LastX<A, X>(s: Scene<A, X>, x: X): X {
    match s
    case Empty => x
    case SetA(_, next) => LastX(next, x)
    case SetX(v, next) => LastX(next, v)
    case Primitive(next) => LastX(next, x)
    case Block(_, _, next) => LastX(next, x)
  }

  /** The attributes in force at each primitive. */
  function SeenA<A, X>(s: Scene<A, X>, a: A): seq<A> {
    match s
    case Empty => []
    case SetA(v, next) => SeenA(next, v)
    case SetX(_, next) => SeenA(next, a)
    case Primitive(next) => [a] + SeenA(next, a)
    case Block(scope, body, next) => SeenA(body, a) + SeenA(next, if scope.Transform? then LastA(body, a) else a)
  }

  /** The transforms in force there; a world starts with the identity. */
  function SeenX<A, X>(s: Scene<A, X>, x: X, identity: X): seq<X> {
    match s
    case Empty => []
    case SetA(_, next) => SeenX(next, x, identity)
    case SetX(v, next) => SeenX(next, v, identity)
    case Primitive(next) => [x] + SeenX(next, x, identity)
    case Block(scope, body, next) =>
      SeenX(body, if scope.World? then identity else x, identity) + SeenX(next, x, identity)
  }

  // ---------- the stacks do that ----------

  /** The operations can be carried out, change no more than the top, and have the given tops at their insertions. */
  ghost predicate Does<T(!new)>(c: Cache<T>, ops: seq<Op<T>>, top: T, seen: seq<T>) {
    exists d :: LeadsTo(c, ops, top, seen, d)
  }

  ghost predicate LeadsTo<T(!new)>(c: Cache<T>, ops: seq<Op<T>>, top: T, seen: seq<T>, d: Cache<T>) {
    && c.Valid() && Nested(c, ops) && After(c, ops) == d
    && d.stack == c.stack[..|c.stack| - 1] + [top]
    && Tops(c, ops) == seen
  }

  lemma DoesWhat<T(!new)>(c: Cache<T>, ops: seq<Op<T>>, top: T, seen: seq<T>)
    requires c.Valid() && Nested(c, ops) && After(c, ops).stack == c.stack[..|c.stack| - 1] + [top]
             && Tops(c, ops) == seen
    ensures Does(c, ops, top, seen)
  {
    assert LeadsTo(c, ops, top, seen, After(c, ops));
  }

  lemma DoesNothing<T(!new)>(c: Cache<T>)
    requires c.Valid()
    ensures Does(c, [], c.Top(), [])
  {
    DoesWhat(c, [], c.Top(), []);
  }

  lemma DoesOne<T(!new)>(c: Cache<T>, op: Op<T>)
    requires c.Valid() && (op.Edit? || op.Share? || op.Clear?)
    ensures Does(c, [op], if op.Edit? then op.value else c.Top(), if op.Share? then [c.Top()] else [])
  {
    AfterOne(c, op);
    NoTops(c, [op]);
    DoesWhat(c, [op], if op.Edit? then op.value else c.Top(), if op.Share? then [c.Top()] else []);
  }

  lemma DoesBoth<T(!new)>(c: Cache<T>, ops: seq<Op<T>>, top: T, seen: seq<T>, more: seq<Op<T>>, top': T, seen': seq<T>)
    requires Does(c, ops, top, seen) && Does(After(c, ops), more, top', seen')
    ensures Does(c, ops + more, top', seen + seen')
  {
    RunJoins(c, ops, more);
    DoesWhat(c, ops + more, top', seen + seen');
  }

  /** A push and a pop around operations bring the top back. */
  lemma DoesBlock<T(!new)>(c: Cache<T>, ops: seq<Op<T>>, top: T, seen: seq<T>)
    requires c.Valid() && Does(Next(c, Push), ops, top, seen)
    ensures Does(c, [Push] + ops + [Pop], c.Top(), seen)
  {
    var d := Next(c, Push);
    var e := After(d, ops);
    AfterOne(c, Push);
    NoTops(c, [Push]);
    AfterOne(e, Pop);
    NoTops(e, [Pop]);
    RunJoins(c, [Push], ops);
    RunJoins(c, [Push] + ops, [Pop]);
    assert e.stack[..|e.stack| - 1] == c.stack;
    assert [] + seen + [] == seen;
    DoesWhat(c, [Push] + ops + [Pop], c.Top(), seen);
  }

  /** The same with the end of a world. */
  lemma DoesWorld<T(!new)>(c: Cache<T>, ops: seq<Op<T>>, top: T, seen: seq<T>)
    requires c.Valid() && Does(Next(c, Push), ops, top, seen)
    ensures Does(c, [Push] + ops + [Clear, Pop], c.Top(), seen)
  {
    var d := Next(c, Push);
    DoesOne(After(d, ops), Clear);
    DoesBoth(d, ops, top, seen, [Clear], top, []);
    assert seen + [] == seen;
    DoesBlock(c, ops + [Clear], top, seen);
    assert [Push] + (ops + [Clear]) + [Pop] == [Push] + ops + [Clear, Pop];
  }

  /** And with an edit after the push. */
  lemma DoesFreshWorld<T(!new)>(c: Cache<T>, begin: seq<Op<T>>, value: T, ops: seq<Op<T>>, end: seq<Op<T>>,
                                top: T, seen: seq<T>)
    requires c.Valid() && begin == [Push, Edit(value)] && end == [Clear, Pop]
    requires Does(Next(Next(c, Push), Edit(value)), ops, top, seen)
    ensures Does(c, begin + ops + end, c.Top(), seen)
  {
    var d := Next(c, Push);
    DoesOne(d, Edit(value));
    AfterOne(d, Edit(value));
    DoesBoth(d, [Edit(value)], value, [], ops, top, seen);
    assert [] + seen == seen;
    DoesWorld(c, [Edit(value)] + ops, top, seen);
    assert [Push] + ([Edit(value)] + ops) == begin + ops;
  }

  /** What a block's own operations make of those of its body. */
  lemma DoesAround<T(!new)>(c: Cache<T>, begin: seq<Op<T>>, ops: seq<Op<T>>, end: seq<Op<T>>, top: T, seen: seq<T>)
    requires c.Valid() && begin == [Push] && (end == [Pop] || end == [Clear, Pop])
             && Does(Next(c, Push), ops, top, seen)
    ensures Does(c, begin + ops + end, c.Top(), seen)
  {
    if end == [Pop] {
      DoesBlock(c, ops, top, seen);
    } else {
      DoesWorld(c, ops, top, seen);
    }
  }

  lemma DoesBare<T(!new)>(c: Cache<T>, begin: seq<Op<T>>, ops: seq<Op<T>>, end: seq<Op<T>>, top: T, seen: seq<T>)
    requires begin == [] && end == [] && Does(c, ops, top, seen)
    ensures Does(c, begin + ops + end, top, seen)
  {
    assert begin + ops + end == ops;
  }

  lemma {:induction false} AttribOpsJoin<A, X>(a: seq<Command<A, X>>, b: seq<Command<A, X>>)
    ensures AllAttribOps(a + b) == AllAttribOps(a) + AllAttribOps(b)
  {
    if a == [] {
      assert a + b == b;
    } else {
      assert (a + b)[1..] == a[1..] + b;
      AttribOpsJoin(a[1..], b);
    }
  }

  lemma {:induction false} XformOpsJoin<A, X>(a: seq<Command<A, X>>, b: seq<Command<A, X>>, identity: X)
    ensures AllXformOps(a + b, identity) == AllXformOps(a, identity) + AllXformOps(b, identity)
  {
    if a == [] {
      assert a + b == b;
    } else {
      assert (a + b)[1..] == a[1..] + b;
      XformOpsJoin(a[1..], b, identity);
    }
  }

  lemma AttribOpsOfBlock<A, X>(s: Scene<A, X>)
    requires s.Block?
    ensures AllAttribOps(Commands(s))
         == AttribOps(Begin<A, X>(s.scope)) + AllAttribOps(Commands(s.body)) + AttribOps(End<A, X>(s.scope))
            + AllAttribOps(Commands(s.next))
  {
    var b, e: Command<A, X> := Begin(s.scope), End(s.scope);
    AttribOpsJoin([b] + Commands(s.body) + [e], Commands(s.next));
    AttribOpsJoin([b] + Commands(s.body), [e]);
    AttribOpsJoin([b], Commands(s.body));
    assert AllAttribOps([b]) == AttribOps(b) && AllAttribOps([e]) == AttribOps(e);
  }

  lemma XformOpsOfBlock<A, X>(s: Scene<A, X>, identity: X)
    requires s.Block?
    ensures AllXformOps(Commands(s), identity)
         == XformOps(Begin<A, X>(s.scope), identity) + AllXformOps(Commands(s.body), identity)
            + XformOps(End<A, X>(s.scope), identity) + AllXformOps(Commands(s.next), identity)
  {
    var b, e: Command<A, X> := Begin(s.scope), End(s.scope);
    XformOpsJoin([b] + Commands(s.body) + [e], Commands(s.next), identity);
    XformOpsJoin([b] + Commands(s.body), [e], identity);
    XformOpsJoin([b], Commands(s.body), identity);
    assert AllXformOps([b], identity) == XformOps(b, identity) && AllXformOps([e], identity) == XformOps(e, identity);
  }

  /** One command that does something known, and the rest of the scene. */
  lemma {:induction false} AttribsThen<A(!new), X>(cmd: Command<A, X>, next: Scene<A, X>, c: Cache<A>, top: A,
                                                   seen: seq<A>)
    requires Does(c, AttribOps(cmd), top, seen)
    ensures Does(c, AllAttribOps([cmd] + Commands(next)), LastA(next, top), seen + SeenA(next, top))
    decreases next, 1
  {
    AttribsScoped(next, After(c, AttribOps(cmd)));
    DoesBoth(c, AttribOps(cmd), top, seen, AllAttribOps(Commands(next)), LastA(next, top), SeenA(next, top));
    assert ([cmd] + Commands(next))[1..] == Commands(next);
  }

  /** The attribute stack keeps to the scopes of every scene, from every state. */
  lemma {:induction false} AttribsScoped<A(!new), X>(s: Scene<A, X>, c: Cache<A>)
    requires c.Valid()
    ensures Does(c, AllAttribOps(Commands(s)), LastA(s, c.Top()), SeenA(s, c.Top()))
    decreases s, 0
  {
    match s
    case Empty => DoesNothing(c);
    case SetA(v, next) =>
      DoesOne(c, Edit(v));
      AttribsThen(SetAttributes(v), next, c, v, []);
      assert [] + SeenA(next, v) == SeenA(s, c.Top());
    case SetX(x, next) =>
      DoesNothing(c);
      AttribsThen(SetTransform(x), next, c, c.Top(), []);
      assert [] + SeenA(next, c.Top()) == SeenA(s, c.Top());
    case Primitive(next) =>
      DoesOne(c, Share);
      AttribsThen(Insert, next, c, c.Top(), [c.Top()]);
    case Block(scope, body, next) =>
      var ops := AttribOps(Begin<A, X>(scope)) + AllAttribOps(Commands(body)) + AttribOps(End<A, X>(scope));
      var top := if scope.Transform? then LastA(body, c.Top()) else c.Top();
      AttribsInBlock(scope, body, c);
      AttribsScoped(next, After(c, ops));
      DoesBoth(c, ops, top, SeenA(body, c.Top()), AllAttribOps(Commands(next)), LastA(next, top), SeenA(next, top));
      AttribOpsOfBlock(s);
  }

  lemma {:induction false} AttribsInBlock<A(!new), X>(scope: Scope, body: Scene<A, X>, c: Cache<A>)
    requires c.Valid()
    ensures Does(c, AttribOps(Begin<A, X>(scope)) + AllAttribOps(Commands(body)) + AttribOps(End<A, X>(scope)),
                 if scope.Transform? then LastA(body, c.Top()) else c.Top(), SeenA(body, c.Top()))
    decreases body, 1
  {
    var ops := AllAttribOps(Commands(body));
    var begin, end := AttribOps(Begin<A, X>(scope)), AttribOps(End<A, X>(scope));
    if scope.Transform? {
      AttribsScoped(body, c);
      DoesBare(c, begin, ops, end, LastA(body, c.Top()), SeenA(body, c.Top()));
    } else {
      AttribsScoped(body, Next(c, Push));
      DoesAround(c, begin, ops, end, LastA(body, c.Top()), SeenA(body, c.Top()));
    }
  }

  lemma {:induction false} XformsThen<A, X(!new)>(cmd: Command<A, X>, next: Scene<A, X>, c: Cache<X>, identity: X,
                                            top: X, seen: seq<X>)
    requires Does(c, XformOps(cmd, identity), top, seen)
    ensures Does(c, AllXformOps([cmd] + Commands(next), identity), LastX(next, top), seen + SeenX(next, top, identity))
    decreases next, 1
  {
    XformsScoped(next, After(c, XformOps(cmd, identity)), identity);
    DoesBoth(c, XformOps(cmd, identity), top, seen, AllXformOps(Commands(next), identity),
             LastX(next, top), SeenX(next, top, identity));
    assert ([cmd] + Commands(next))[1..] == Commands(next);
  }

  /** The transform stack does too. */
  lemma {:induction false} XformsScoped<A, X(!new)>(s: Scene<A, X>, c: Cache<X>, identity: X)
    requires c.Valid()
    ensures Does(c, AllXformOps(Commands(s), identity), LastX(s, c.Top()), SeenX(s, c.Top(), identity))
    decreases s, 0
  {
    match s
    case Empty => DoesNothing(c);
    case SetA(v, next) =>
      DoesNothing(c);
      XformsThen(SetAttributes(v), next, c, identity, c.Top(), []);
      assert [] + SeenX(next, c.Top(), identity) == SeenX(s, c.Top(), identity);
    case SetX(x, next) =>
      DoesOne(c, Edit(x));
      XformsThen(SetTransform(x), next, c, identity, x, []);
      assert [] + SeenX(next, x, identity) == SeenX(s, c.Top(), identity);
    case Primitive(next) =>
      DoesOne(c, Share);
      XformsThen(Insert, next, c, identity, c.Top(), [c.Top()]);
    case Block(scope, body, next) =>
      var ops := XformOps(Begin<A, X>(scope), identity) + AllXformOps(Commands(body), identity)
                 + XformOps(End<A, X>(scope), identity);
      var start := if scope.World? then identity else c.Top();
      XformsInBlock(scope, body, c, identity, start);
      XformsScoped(next, After(c, ops), identity);
      DoesBoth(c, ops, c.Top(), SeenX(body, start, identity), AllXformOps(Commands(next), identity),
               LastX(next, c.Top()), SeenX(next, c.Top(), identity));
      XformOpsOfBlock(s, identity);
  }

  lemma {:induction false} XformsInBlock<A, X(!new)>(scope: Scope, body: Scene<A, X>, c: Cache<X>, identity: X,
                                                     start: X)
    requires c.Valid() && start == if scope.World? then identity else c.Top()
    ensures Does(c, XformOps(Begin<A, X>(scope), identity) + AllXformOps(Commands(body), identity)
                    + XformOps(End<A, X>(scope), identity),
                 c.Top(), SeenX(body, start, identity))
    decreases body, 1
  {
    var ops, seen := AllXformOps(Commands(body), identity), SeenX(body, start, identity);
    var begin, end := XformOps(Begin<A, X>(scope), identity), XformOps(End<A, X>(scope), identity);
    if scope.World? {
      XformsScoped(body, Next(Next(c, Push), Edit(identity)), identity);
      DoesFreshWorld(c, begin, identity, ops, end, LastX(body, start), seen);
    } else {
      XformsScoped(body, Next(c, Push), identity);
      DoesAround(c, begin, ops, end, LastX(body, start), seen);
    }
  }

  // ---------- what primitives are given ----------

  /** Each primitive of a scene with the attributes and transform in force where it stands. */
  ghost predicate GivenInForce<A, X>(given: seq<Given<A, X>>, s: Scene<A, X>, a: A, identity: X) {
    && |given| == |SeenA(s, a)| == |SeenX(s, identity, identity)|
    && forall k :: 0 <= k < |given| ==>
         given[k].a == Some(SeenA(s, a)[k]) && given[k].x == Some(SeenX(s, identity, identity)[k])
  }

  /**
   * Every scene can be run from a new state, and if each pop and world end is followed by an edit before the next
   * primitive, every primitive is given what is in force where it stands.
   */
  method RunScene<A(==, !new), X(==, !new)>(a: A, identity: X, s: Scene<A, X>) returns (given: seq<Given<A, X>>)
    ensures GivenTops(given, SeenA(s, a), SeenX(s, identity, identity))
    ensures Guarded(AllAttribOps(Commands(s)), false) && Guarded(AllXformOps(Commands(s), identity), false) ==>
              GivenInForce(given, s, a, identity)
  {
    AttribsScoped(s, Initial(a));
    XformsScoped(s, Initial(identity), identity);
    given := RunCommands(a, identity, Commands(s));
  }
}
