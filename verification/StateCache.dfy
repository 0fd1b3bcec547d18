/** The attribute and transform stacks, and the revision-checked copies of their tops that primitives share. */
module StateCache {
  import opened Common

  /** A copy stack, its revision tracker, and the framework's checker and list of shared copies. */
  datatype Cache<T> = Cache(stack: seq<T>, rev: int, cur: int, unique: seq<T>) {
    predicate Valid() { |stack| >= 1 && cur <= rev }
    function Top(): T
      requires Valid()
    {
      stack[|stack| - 1]
    }
  }

  /** What the commands do to one stack: Share is an insertion, Clear the end of a world. */
  datatype Op<T> = Push | Pop | Edit(value: T) | Share | Clear

  function Initial<T>(value: T): Cache<T> { Cache([value], 0, -1, []) }

  /** Insertion: a copy of the top is added if the revision is not the one last seen. */
  function Synced<T>(c: Cache<T>): Cache<T>
    requires c.Valid()
  {
    if c.rev != c.cur then c.(cur := c.rev, unique := c.unique + [c.Top()]) else c
  }

  /** The last copy; there is none if the list is empty. */
  function Shared<T>(c: Cache<T>): Option<T>
    requires c.Valid()
  {
    var u := Synced(c).unique;
    if u == [] then None else Some(u[|u| - 1])
  }

  /** Every pop has a push to undo. */
  predicate Allowed<T>(c: Cache<T>, op: Op<T>) {
    c.Valid() && (op.Pop? ==> |c.stack| >= 2)
  }

  function Next<T>(c: Cache<T>, op: Op<T>): (d: Cache<T>)
    requires Allowed(c, op)
    ensures d.Valid()
  {
    match op
    case Push => c.(stack := c.stack + [c.Top()])
    case Pop => c.(stack := c.stack[..|c.stack| - 1])
    case Edit(value) => c.(stack := c.stack[|c.stack| - 1 := value], rev := c.rev + 1)
    case Share => Synced(c)
    case Clear => c.(unique := [])
  }

  /** The operations can all be carried out. */
  predicate Nested<T>(c: Cache<T>, ops: seq<Op<T>>)
    decreases |ops|
  {
    ops != [] ==> Allowed(c, ops[0]) && Nested(Next(c, ops[0]), ops[1..])
  }

  function After<T>(c: Cache<T>, ops: seq<Op<T>>): (d: Cache<T>)
    requires c.Valid() && Nested(c, ops)
    ensures d.Valid()
    decreases |ops|
  {
    if ops == [] then c else After(Next(c, ops[0]), ops[1..])
  }

  lemma AfterOne<T>(c: Cache<T>, op: Op<T>)
    requires Allowed(c, op)
    ensures Nested(c, [op]) && After(c, [op]) == Next(c, op)
  {
    assert [op][1..] == [];
    assert After(Next(c, op), []) == Next(c, op);
  }

  lemma AfterTwo<T>(c: Cache<T>, op: Op<T>, op': Op<T>)
    requires Allowed(c, op) && Allowed(Next(c, op), op')
    ensures Nested(c, [op, op']) && After(c, [op, op']) == Next(Next(c, op), op')
  {
    assert [op, op'][1..] == [op'];
    AfterOne(Next(c, op), op');
  }

  // ---------- runs that are always right ----------

  /** Every insertion is right: the primitive is given the current top. */
  predicate AlwaysCurrent<T(==)>(c: Cache<T>, ops: seq<Op<T>>)
    requires c.Valid() && Nested(c, ops)
    decreases |ops|
  {
    ops != [] ==>
      && (ops[0].Share? ==> Shared(c) == Some(c.Top()))
      && AlwaysCurrent(Next(c, ops[0]), ops[1..])
  }

  /** Between a pop or the end of a world and the next insertion there is an edit; `stale` if one is due. */
  predicate Guarded<T>(ops: seq<Op<T>>, stale: bool) {
    ops != [] ==>
      && (ops[0].Share? ==> !stale)
      && Guarded(ops[1..], if ops[0].Pop? || ops[0].Clear? then true else if ops[0].Edit? then false else stale)
  }

  /** The last copy is of the top, unless a new one is due anyway or the guard is up. */
  ghost predicate Fresh<T>(c: Cache<T>, stale: bool) {
    c.Valid() && (!stale && c.cur == c.rev ==> c.unique != [] && c.unique[|c.unique| - 1] == c.Top())
  }

  lemma {:induction false} GuardedIsCurrent<T>(c: Cache<T>, ops: seq<Op<T>>, stale: bool)
    requires Fresh(c, stale) && Nested(c, ops) && Guarded(ops, stale)
    ensures AlwaysCurrent(c, ops)
    decreases |ops|
  {
    if ops != [] {
      GuardedIsCurrent(Next(c, ops[0]), ops[1..], if ops[0].Pop? || ops[0].Clear? then true
                       else if ops[0].Edit? then false else stale);
    }
  }

  // ---------- exactly when one insertion is right ----------

  /** No insertion and no edit: only pushes, pops and ends of worlds. */
  predicate Silent<T>(ops: seq<Op<T>>) {
    ops != [] ==> (ops[0].Push? || ops[0].Pop? || ops[0].Clear?) && Silent(ops[1..])
  }

  predicate EndsWorld<T>(ops: seq<Op<T>>) {
    ops != [] && (ops[0].Clear? || EndsWorld(ops[1..]))
  }

  /** The least depth that the stack reaches. */
  function Lowest<T>(depth: int, ops: seq<Op<T>>): int
    decreases |ops|
  {
    if ops == [] then depth
    else
      var later := Lowest(if ops[0].Push? then depth + 1 else if ops[0].Pop? then depth - 1 else depth, ops[1..]);
      if later < depth then later else depth
  }

  /** The first `low` entries of `base`, the last of them repeated. */
  ghost predicate Above<T>(base: seq<T>, low: int, stack: seq<T>) {
    && 1 <= low <= |base| && low <= |stack| && stack[..low] == base[..low]
    && forall k :: low <= k < |stack| ==> stack[k] == base[low - 1]
  }

  lemma AboveNext<T>(c: Cache<T>, op: Op<T>, base: seq<T>, low: int)
    requires Allowed(c, op) && (op.Push? || op.Pop? || op.Clear?) && Above(base, low, c.stack)
    ensures var d := Next(c, op); Above(base, if |d.stack| < low then |d.stack| else low, d.stack)
  {
  }

  lemma {:induction false} SilentRun<T>(c: Cache<T>, ops: seq<Op<T>>, base: seq<T>, low: int)
    requires c.Valid() && Nested(c, ops) && Silent(ops) && Above(base, low, c.stack)
    ensures var d := After(c, ops); var l := Lowest(|c.stack|, ops);
            && d.rev == c.rev && d.cur == c.cur && d.unique == (if EndsWorld(ops) then [] else c.unique)
            && Above(base, if l < low then l else low, d.stack)
    decreases |ops|
  {
    if ops != [] {
      var d := Next(c, ops[0]);
      AboveNext(c, ops[0], base, low);
      SilentRun(d, ops[1..], base, if |d.stack| < low then |d.stack| else low);
    }
  }

  /**
   * With no edit since the revision was last seen, an insertion is right exactly if no world has ended and the
   * last copy is what the stack held at the outermost level returned to.
   */
  lemma CurrentExactly<T>(c: Cache<T>, ops: seq<Op<T>>)
    requires c.Valid() && Nested(c, ops) && Silent(ops) && c.rev == c.cur
    ensures 1 <= Lowest(|c.stack|, ops) <= |c.stack|
    ensures var d := After(c, ops);
            Shared(d) == Some(d.Top()) <==>
              !EndsWorld(ops) && c.unique != [] && c.unique[|c.unique| - 1] == c.stack[Lowest(|c.stack|, ops) - 1]
  {
    assert Above(c.stack, |c.stack|, c.stack);
    SilentRun(c, ops, c.stack, |c.stack|);
  }

  /** An edit since then makes the next insertion right. */
  lemma {:induction false} CurrentAfterEdit<T>(c: Cache<T>, ops: seq<Op<T>>)
    requires c.Valid() && Nested(c, ops) && (forall k :: 0 <= k < |ops| ==> !ops[k].Share?)
    requires c.cur < c.rev || exists k :: 0 <= k < |ops| && ops[k].Edit?
    ensures var d := After(c, ops); Shared(d) == Some(d.Top()) && d.cur < d.rev
    decreases |ops|
  {
    if ops != [] {
      assert forall k :: 0 < k < |ops| ==> ops[k] == ops[1..][k - 1];
      CurrentAfterEdit(Next(c, ops[0]), ops[1..]);
    }
  }

  // ---------- the commands ----------

  datatype Command<A, X> =
    | FrameBegin | FrameEnd | WorldBegin | WorldEnd
    | AttributeBegin | AttributeEnd | TransformBegin | TransformEnd
    | SetAttributes(attribs: A) | SetTransform(xform: X)
    | Insert

  function AttribOps<A, X>(cmd: Command<A, X>): seq<Op<A>> {
    match cmd
    case FrameBegin | WorldBegin | AttributeBegin => [Push]
    case FrameEnd | AttributeEnd => [Pop]
    case WorldEnd => [Clear, Pop]
    case SetAttributes(a) => [Edit(a)]
    case Insert => [Share]
    case _ => []
  }

  function XformOps<A, X>(cmd: Command<A, X>, identity: X): seq<Op<X>> {
    match cmd
    case FrameBegin | AttributeBegin | TransformBegin => [Push]
    case WorldBegin => [Push, Edit(identity)]
    case FrameEnd | AttributeEnd | TransformEnd => [Pop]
    case WorldEnd => [Clear, Pop]
    case SetTransform(x) => [Edit(x)]
    case Insert => [Share]
    case _ => []
  }

  function AllAttribOps<A, X>(cmds: seq<Command<A, X>>): seq<Op<A>> {
    if cmds == [] then [] else AttribOps(cmds[0]) + AllAttribOps(cmds[1..])
  }

  function AllXformOps<A, X>(cmds: seq<Command<A, X>>, identity: X): seq<Op<X>> {
    if cmds == [] then [] else XformOps(cmds[0], identity) + AllXformOps(cmds[1..], identity)
  }

  class State<A(==), X(==)> {
    const identity: X
    var attribs: Cache<A>
    var xforms: Cache<X>

    constructor (a: A, identity: X)
      ensures this.identity == identity && attribs == Initial(a) && xforms == Initial(identity)
    {
      this.identity := identity;
      attribs := Initial(a);
      xforms := Initial(identity);
    }

    method PushStacks(atrb: bool, tran: bool)
      requires attribs.Valid() && xforms.Valid()
      modifies this
      ensures attribs == if atrb then Next(old(attribs), Push) else old(attribs)
      ensures xforms == if tran then Next(old(xforms), Push) else old(xforms)
    {
      if atrb { attribs := attribs.(stack := attribs.stack + [attribs.Top()]); }
      if tran { xforms := xforms.(stack := xforms.stack + [xforms.Top()]); }
    }

    method PopStacks(atrb: bool, tran: bool)
      requires attribs.Valid() && xforms.Valid() && (atrb ==> |attribs.stack| >= 2) && (tran ==> |xforms.stack| >= 2)
      modifies this
      ensures attribs == if atrb then Next(old(attribs), Pop) else old(attribs)
      ensures xforms == if tran then Next(old(xforms), Pop) else old(xforms)
    {
      if atrb { attribs := attribs.(stack := attribs.stack[..|attribs.stack| - 1]); }
      if tran { xforms := xforms.(stack := xforms.stack[..|xforms.stack| - 1]); }
    }

    /** Insertion of a primitive: the attributes and the transform it is given. */
    method InsertPrim() returns (a: Option<A>, x: Option<X>)
      requires attribs.Valid() && xforms.Valid()
      modifies this
      ensures a == Shared(old(attribs)) && x == Shared(old(xforms))
      ensures attribs == Synced(old(attribs)) && xforms == Synced(old(xforms))
    {
      if attribs.rev != attribs.cur {
        attribs := attribs.(cur := attribs.rev, unique := attribs.unique + [attribs.Top()]);
      }
      if xforms.rev != xforms.cur {
        xforms := xforms.(cur := xforms.rev, unique := xforms.unique + [xforms.Top()]);
      }
      a := if attribs.unique == [] then None else Some(attribs.unique[|attribs.unique| - 1]);
      x := if xforms.unique == [] then None else Some(xforms.unique[|xforms.unique| - 1]);
    }

    /** One command: each stack goes through the operations that the command stands for. */
    method Do(cmd: Command<A, X>) returns (a: Option<A>, x: Option<X>)
      requires attribs.Valid() && Nested(attribs, AttribOps(cmd))
      requires xforms.Valid() && Nested(xforms, XformOps(cmd, identity))
      modifies this
      ensures attribs == After(old(attribs), AttribOps(cmd)) && xforms == After(old(xforms), XformOps(cmd, identity))
      ensures cmd.Insert? ==> a == Shared(old(attribs)) && x == Shared(old(xforms))
    {
      a, x := None, None;
      match cmd {
        case FrameBegin => BothPush(); PushStacks(true, true);
        case FrameEnd => BothPop(); PopStacks(true, true);
        case WorldBegin =>
          AfterOne(attribs, Push);
          AfterTwo(xforms, Push, Edit(identity));
          PushStacks(true, true);
          xforms := xforms.(stack := xforms.stack[|xforms.stack| - 1 := identity], rev := xforms.rev + 1);
        case WorldEnd =>
          AfterTwo(attribs, Clear, Pop);
          AfterTwo(xforms, Clear, Pop);
          attribs, xforms := attribs.(unique := []), xforms.(unique := []);
          PopStacks(true, true);
        case AttributeBegin => BothPush(); PushStacks(true, true);
        case AttributeEnd => BothPop(); PopStacks(true, true);
        case TransformBegin => AfterOne(xforms, Push); PushStacks(false, true);
        case TransformEnd => AfterOne(xforms, Pop); PopStacks(false, true);
        case SetAttributes(v) =>
          AfterOne(attribs, Edit(v));
          attribs := attribs.(stack := attribs.stack[|attribs.stack| - 1 := v], rev := attribs.rev + 1);
        case SetTransform(v) =>
          AfterOne(xforms, Edit(v));
          xforms := xforms.(stack := xforms.stack[|xforms.stack| - 1 := v], rev := xforms.rev + 1);
        case Insert =>
          AfterOne(attribs, Share);
          AfterOne(xforms, Share);
          a, x := InsertPrim();
      }
    }

    lemma BothPush()
      requires attribs.Valid() && xforms.Valid()
      ensures After(attribs, [Push]) == Next(attribs, Push) && After(xforms, [Push]) == Next(xforms, Push)
    {
      AfterOne(attribs, Push);
      AfterOne(xforms, Push);
    }

    lemma BothPop()
      requires attribs.Valid() && xforms.Valid() && |attribs.stack| >= 2 && |xforms.stack| >= 2
      ensures Nested(attribs, [Pop]) && After(attribs, [Pop]) == Next(attribs, Pop)
      ensures Nested(xforms, [Pop]) && After(xforms, [Pop]) == Next(xforms, Pop)
    {
      AfterOne(attribs, Pop);
      AfterOne(xforms, Pop);
    }
  }

  /**
   * Every run of commands from a new state in which each pop and each world end is followed, before the next
   * insertion, by a command that edits the stack: all primitives are given the current attributes and transform.
   */
  lemma GuardedRunsAreCurrent<A, X>(a: A, identity: X, cmds: seq<Command<A, X>>)
    requires Nested(Initial(a), AllAttribOps(cmds)) && Guarded(AllAttribOps(cmds), false)
    requires Nested(Initial(identity), AllXformOps(cmds, identity)) && Guarded(AllXformOps(cmds, identity), false)
    ensures AlwaysCurrent(Initial(a), AllAttribOps(cmds))
    ensures AlwaysCurrent(Initial(identity), AllXformOps(cmds, identity))
  {
    GuardedIsCurrent(Initial(a), AllAttribOps(cmds), false);
    GuardedIsCurrent(Initial(identity), AllXformOps(cmds, identity), false);
  }

  /** A run of two parts is a run of the first and then of the second. */
  lemma {:induction false} RunSplits<T>(c: Cache<T>, ops: seq<Op<T>>, more: seq<Op<T>>)
    requires c.Valid() && Nested(c, ops + more)
    ensures Nested(c, ops) && Nested(After(c, ops), more)
    ensures AlwaysCurrent(c, ops + more) ==> AlwaysCurrent(c, ops) && AlwaysCurrent(After(c, ops), more)
    decreases |ops|
  {
    if ops == [] {
      assert ops + more == more;
    } else {
      assert (ops + more)[1..] == ops[1..] + more;
      RunSplits(Next(c, ops[0]), ops[1..], more);
    }
  }

  /** The tops at the insertions. */
  function Tops<T>(c: Cache<T>, ops: seq<Op<T>>): seq<T>
    requires c.Valid() && Nested(c, ops)
    decreases |ops|
  {
    if ops == [] then []
    else (if ops[0].Share? then [c.Top()] else []) + Tops(Next(c, ops[0]), ops[1..])
  }

  /** Both parts of a run can be carried out, one after the other. */
  lemma {:induction false} RunJoins<T>(c: Cache<T>, ops: seq<Op<T>>, more: seq<Op<T>>)
    requires c.Valid() && Nested(c, ops) && Nested(After(c, ops), more)
    ensures Nested(c, ops + more) && After(c, ops + more) == After(After(c, ops), more)
    ensures Tops(c, ops + more) == Tops(c, ops) + Tops(After(c, ops), more)
    decreases |ops|
  {
    if ops == [] {
      assert ops + more == more;
    } else {
      var d := Next(c, ops[0]);
      assert (ops + more)[1..] == ops[1..] + more;
      RunJoins(d, ops[1..], more);
      ConcatAssoc(if ops[0].Share? then [c.Top()] else [], Tops(d, ops[1..]), Tops(After(c, ops), more));
    }
  }

  lemma ConcatAssoc<T>(a: seq<T>, b: seq<T>, c: seq<T>)
    ensures (a + b) + c == a + (b + c)
  {
  }

  lemma TopsOfCommand<A, X>(attribs: Cache<A>, xforms: Cache<X>, cmd: Command<A, X>, identity: X)
    requires attribs.Valid() && Nested(attribs, AttribOps(cmd)) && xforms.Valid()
             && Nested(xforms, XformOps(cmd, identity))
    ensures Tops(attribs, AttribOps(cmd)) == if cmd.Insert? then [attribs.Top()] else []
    ensures Tops(xforms, XformOps(cmd, identity)) == if cmd.Insert? then [xforms.Top()] else []
  {
    NoTops(attribs, AttribOps(cmd));
    NoTops(xforms, XformOps(cmd, identity));
  }

  lemma NoTops<T>(c: Cache<T>, ops: seq<Op<T>>)
    requires c.Valid() && Nested(c, ops) && |ops| <= 2 && ((exists k :: 0 <= k < |ops| && ops[k].Share?) ==> |ops| == 1)
    ensures Tops(c, ops) == if |ops| == 1 && ops[0].Share? then [c.Top()] else []
  {
    if |ops| > 0 {
      var d := Next(c, ops[0]);
      if |ops| == 2 {
        assert ops[1..][0] == ops[1] && ops[1..][1..] == [];
        assert Tops(Next(d, ops[1]), []) == [];
        assert Tops(d, ops[1..]) == [];
      } else {
        assert ops[1..] == [] && Tops(d, []) == [];
      }
    }
  }

  /** What one primitive was given, and the tops of the stacks when it was inserted. */
  datatype Given<A, X> = Given(a: Option<A>, x: Option<X>, topA: A, topX: X) {
    ghost predicate Current() { a == Some(topA) && x == Some(topX) }
  }

  /** The commands that are left can all be carried out and, if `right`, every insertion among them is right. */
  ghost predicate Runs<A, X>(attribs: Cache<A>, xforms: Cache<X>, identity: X, cmds: seq<Command<A, X>>, right: bool) {
    && attribs.Valid() && Nested(attribs, AllAttribOps(cmds)) && xforms.Valid()
      && Nested(xforms, AllXformOps(cmds, identity))
    && (right ==> AlwaysCurrent(attribs, AllAttribOps(cmds)) && AlwaysCurrent(xforms, AllXformOps(cmds, identity)))
  }

  lemma RunsNext<A, X>(attribs: Cache<A>, xforms: Cache<X>, identity: X, cmds: seq<Command<A, X>>, right: bool)
    requires Runs(attribs, xforms, identity, cmds, right) && cmds != []
    ensures Nested(attribs, AttribOps(cmds[0])) && Nested(xforms, XformOps(cmds[0], identity))
    ensures Runs(After(attribs, AttribOps(cmds[0])), After(xforms, XformOps(cmds[0], identity)), identity, cmds[1..],
                 right)
    ensures right && cmds[0].Insert? ==> Shared(attribs) == Some(attribs.Top()) && Shared(xforms) == Some(xforms.Top())
  {
    RunSplits(attribs, AttribOps(cmds[0]), AllAttribOps(cmds[1..]));
    RunSplits(xforms, XformOps(cmds[0], identity), AllXformOps(cmds[1..], identity));
  }

  method Turn<A(==), X(==)>(st: State<A, X>, cmd: Command<A, X>, ghost left: seq<Command<A, X>>, ghost right: bool)
    returns (g: Given<A, X>)
    requires Runs(st.attribs, st.xforms, st.identity, left, right) && left != [] && cmd == left[0]
    modifies st
    ensures Nested(old(st.attribs), AttribOps(cmd)) && st.attribs == After(old(st.attribs), AttribOps(cmd))
    ensures Nested(old(st.xforms), XformOps(cmd, st.identity))
    ensures st.xforms == After(old(st.xforms), XformOps(cmd, st.identity))
    ensures Runs(st.attribs, st.xforms, st.identity, left[1..], right)
    ensures g.topA == old(st.attribs).Top() && g.topX == old(st.xforms).Top()
    ensures right && cmd.Insert? ==> g.Current()
  {
    RunsNext(st.attribs, st.xforms, st.identity, left, right);
    var topA, topX := st.attribs.Top(), st.xforms.Top();
    var ga, gx := st.Do(cmd);
    g := Given(ga, gx, topA, topX);
  }

  ghost predicate AllCurrent<A, X>(given: seq<Given<A, X>>) {
    forall k :: 0 <= k < |given| ==> given[k].Current()
  }

  /** The tops at the insertions were those of the two stacks. */
  ghost predicate GivenTops<A, X>(given: seq<Given<A, X>>, topsA: seq<A>, topsX: seq<X>) {
    && |given| == |topsA| == |topsX|
    && forall k :: 0 <= k < |given| ==> given[k].topA == topsA[k] && given[k].topX == topsX[k]
  }

  lemma TopsNext<A, X>(attribs: Cache<A>, xforms: Cache<X>, identity: X, cmds: seq<Command<A, X>>, right: bool)
    requires Runs(attribs, xforms, identity, cmds, right) && cmds != []
    ensures Nested(attribs, AttribOps(cmds[0])) && Nested(xforms, XformOps(cmds[0], identity))
    ensures var c := After(attribs, AttribOps(cmds[0]));
            && Nested(c, AllAttribOps(cmds[1..]))
            && Tops(attribs, AllAttribOps(cmds))
               == (if cmds[0].Insert? then [attribs.Top()] else []) + Tops(c, AllAttribOps(cmds[1..]))
    ensures var c := After(xforms, XformOps(cmds[0], identity));
            && Nested(c, AllXformOps(cmds[1..], identity))
            && Tops(xforms, AllXformOps(cmds, identity))
               == (if cmds[0].Insert? then [xforms.Top()] else []) + Tops(c, AllXformOps(cmds[1..], identity))
  {
    RunsNext(attribs, xforms, identity, cmds, right);
    RunJoins(attribs, AttribOps(cmds[0]), AllAttribOps(cmds[1..]));
    RunJoins(xforms, XformOps(cmds[0], identity), AllXformOps(cmds[1..], identity));
    TopsOfCommand(attribs, xforms, cmds[0], identity);
  }

  lemma GivenFirst<A, X>(g: Given<A, X>, rest: seq<Given<A, X>>, first: bool, topA: A, topsA: seq<A>, topX: X,
                         topsX: seq<X>)
    requires g.topA == topA && g.topX == topX && GivenTops(rest, topsA, topsX)
    ensures GivenTops(if first then [g] + rest else rest,
                      (if first then [topA] else []) + topsA, (if first then [topX] else []) + topsX)
  {
  }

  function Insertions<A, X>(cmds: seq<Command<A, X>>): nat {
    if cmds == [] then 0 else (if cmds[0].Insert? then 1 else 0) + Insertions(cmds[1..])
  }

  /** The commands in turn. */
  method RunFrom<A(==), X(==)>(st: State<A, X>, cmds: seq<Command<A, X>>, ghost right: bool)
    returns (given: seq<Given<A, X>>)
    requires Runs(st.attribs, st.xforms, st.identity, cmds, right)
    modifies st
    ensures |given| == Insertions(cmds) && (right ==> AllCurrent(given))
    ensures GivenTops(given, Tops(old(st.attribs), AllAttribOps(cmds)),
                      Tops(old(st.xforms), AllXformOps(cmds, st.identity)))
    decreases |cmds|
  {
    given := [];
    if cmds != [] {
      var g := Turn(st, cmds[0], cmds, right);
      var rest := RunFrom(st, cmds[1..], right);
      given := if cmds[0].Insert? then [g] + rest else rest;
      TopsNext(old(st.attribs), old(st.xforms), st.identity, cmds, right);
      GivenFirst(g, rest, cmds[0].Insert?, old(st.attribs).Top(),
                 Tops(After(old(st.attribs), AttribOps(cmds[0])), AllAttribOps(cmds[1..])), old(st.xforms).Top(),
                 Tops(After(old(st.xforms), XformOps(cmds[0], st.identity)), AllXformOps(cmds[1..], st.identity)));
    }
  }

  /** In a guarded run from a new state every primitive is given the current tops. */
  method RunCommands<A(==), X(==)>(a: A, identity: X, cmds: seq<Command<A, X>>) returns (given: seq<Given<A, X>>)
    requires Nested(Initial(a), AllAttribOps(cmds)) && Nested(Initial(identity), AllXformOps(cmds, identity))
    ensures |given| == Insertions(cmds)
    ensures GivenTops(given, Tops(Initial(a), AllAttribOps(cmds)), Tops(Initial(identity), AllXformOps(cmds, identity)))
    ensures Guarded(AllAttribOps(cmds), false) && Guarded(AllXformOps(cmds, identity), false) ==> AllCurrent(given)
  {
    var st := new State(a, identity);
    ghost var guarded := Guarded(AllAttribOps(cmds), false) && Guarded(AllXformOps(cmds, identity), false);
    if guarded {
      GuardedRunsAreCurrent(a, identity, cmds);
    }
    given := RunFrom(st, cmds, guarded);
  }

  lemma FirstStep<T>(c: Cache<T>, ops: seq<Op<T>>, d: Cache<T>, rest: seq<Op<T>>)
    requires ops != [] && Allowed(c, ops[0]) && d == Next(c, ops[0]) && rest == ops[1..] && Nested(d, rest)
    ensures Nested(c, ops) && After(c, ops) == After(d, rest)
  {
  }

  lemma BlockOps()
    ensures AllAttribOps([AttributeBegin, SetAttributes(7), Command<int, int>.Insert, AttributeEnd])
            == [Push, Edit(7), Share, Pop]
  {
    var cmds: seq<Command<int, int>> := [AttributeBegin, SetAttributes(7), Insert, AttributeEnd];
    assert cmds[1..][1..] == cmds[2..] && cmds[2..][1..] == cmds[3..] && cmds[3..][1..] == [];
  }

  /** After AttributeEnd a primitive is given the attributes of the block that has ended. */
  lemma StaleAfterAttributeEnd()
    ensures var ops: seq<Op<int>> := [Push, Edit(7), Share, Pop];
            && AllAttribOps([AttributeBegin, SetAttributes(7), Command<int, int>.Insert, AttributeEnd]) == ops
            && Nested(Initial(0), ops) && var d := After(Initial(0), ops); d.Top() == 0 && Shared(d) == Some(7)
  {
    BlockOps();
    var ops: seq<Op<int>> := [Push, Edit(7), Share, Pop];
    var c2: Cache<int> := Cache([0, 7], 1, -1, []);
    var c3: Cache<int> := Cache([0, 7], 1, 1, [7]);
    AfterOne(c3, Pop);
    FirstStep(c2, [Share, Pop], c3, [Pop]);
    FirstStep(Cache([0, 0], 0, -1, []), [Edit(7), Share, Pop], c2, [Share, Pop]);
    FirstStep(Initial(0), ops, Cache([0, 0], 0, -1, []), [Edit(7), Share, Pop]);
  }

  lemma TwoWorldsOps()
    ensures AllAttribOps([Command<int, int>.WorldBegin, Insert, WorldEnd, WorldBegin])
            == [Push, Share, Clear, Pop, Push]
  {
    var cmds: seq<Command<int, int>> := [WorldBegin, Insert, WorldEnd, WorldBegin];
    assert cmds[1..][1..] == cmds[2..] && cmds[2..][1..] == cmds[3..] && cmds[3..][1..] == [];
  }

  /** In a second world a primitive that comes before any attribute command finds no attributes at all. */
  lemma NothingInSecondWorld(value: int)
    ensures var ops: seq<Op<int>> := [Push, Share, Clear, Pop, Push];
            && AllAttribOps([Command<int, int>.WorldBegin, Insert, WorldEnd, WorldBegin]) == ops
            && Nested(Initial(value), ops) && Shared(After(Initial(value), ops)) == None
  {
    TwoWorldsOps();
    var c1, c2 := Cache([value, value], 0, -1, []), Cache([value, value], 0, 0, [value]);
    AfterTwo(Cache([value, value], 0, 0, []), Pop, Push);
    FirstStep(c2, [Clear, Pop, Push], Cache([value, value], 0, 0, []), [Pop, Push]);
    FirstStep(c1, [Share, Clear, Pop, Push], c2, [Clear, Pop, Push]);
    FirstStep(Initial(value), [Push, Share, Clear, Pop, Push], c1, [Share, Clear, Pop, Push]);
  }
}
