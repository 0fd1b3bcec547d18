/** What the structured meaning of a shader says of its parts: sequence, branches and blocks taken away. */
module ShaderLaws {
  import opened ShaderCode
  import opened ShaderMachine

  function Append(p: Prog, q: Prog): Prog {
    match p
    case Done => q
    case RetThen(next) => RetThen(Append(next, q))
    case Op(id, opers, next) => Op(id, opers, Append(next, q))
    case If(cond, body, next) => If(cond, body, Append(next, q))
    case IfElse(cond, body, els, next) => IfElse(cond, body, els, Append(next, q))
    case Illum(a, opers, body, next) => Illum(a, opers, body, Append(next, q))
    case SolarBlock(a, opers, body, next) => SolarBlock(a, opers, body, Append(next, q))
  }

  lemma AppendFirst(p: Prog, q: Prog)
    requires !p.Done?
    ensures !Append(p, q).Done? && Append(p, q).next == Append(p.next, q)
  {
  }

  lemma SameStmt<S>(env: Env<S>, p: Prog, q: Prog, depth: nat, st: S)
    requires !p.Done?
    ensures ExecStmt(env, Append(p, q), depth, st) == ExecStmt(env, p, depth, st)
  {
  }

  /** One program after another runs on what the first leaves, unless that returns or fails. */
  lemma {:induction false} ExecAppend<S>(env: Env<S>, p: Prog, q: Prog, depth: nat, st: S)
    ensures Exec(env, Append(p, q), depth, st)
         == AndThen(Exec(env, p, depth, st), Exec(env, q, depth, Exec(env, p, depth, st).st))
  {
    if !p.Done? {
      AppendFirst(p, q);
      SameStmt(env, p, q, depth, st);
      var r := ExecStmt(env, p, depth, st);
      if r.Normal? {
        ExecAppend(env, p.next, q, depth, r.st);
      }
    }
  }

  // ---------- the depth does not show ----------

  lemma {:induction false} NestsLess(p: Prog, depth: nat)
    requires NestsWell(p, depth + 1)
    ensures NestsWell(p, depth)
  {
    if !p.Done? {
      NestsLess(p.next, depth);
      match p {
        case If(_, body, _) => NestsLess(body, depth + 1);
        case IfElse(_, body, els, _) =>
          NestsLess(body, depth + 1);
          NestsLess(els, depth + 1);
        case _ =>
      }
    }
  }

  /** A program that nests well at two depths does the same at both. */
  lemma {:induction false} DepthDoesNotShow<S>(env: Env<S>, p: Prog, depth: nat, depth': nat, st: S)
    requires NestsWell(p, depth) && NestsWell(p, depth')
    ensures Exec(env, p, depth, st) == Exec(env, p, depth', st)
    decreases p, 1
  {
    if !p.Done? {
      StmtDepthDoesNotShow(env, p, depth, depth', st);
      DepthDoesNotShow(env, p.next, depth, depth', ExecStmt(env, p, depth, st).st);
    }
  }

  lemma {:induction false} StmtDepthDoesNotShow<S>(env: Env<S>, p: Prog, depth: nat, depth': nat, st: S)
    requires !p.Done? && NestsWell(p, depth) && NestsWell(p, depth')
    ensures ExecStmt(env, p, depth, st) == ExecStmt(env, p, depth', st)
    decreases p, 0
  {
    match p
    case If(_, body, _) => DepthDoesNotShow(env, body, depth + 1, depth' + 1, st);
    case IfElse(_, body, els, _) =>
      DepthDoesNotShow(env, body, depth + 1, depth' + 1, st);
      DepthDoesNotShow(env, els, depth + 1, depth' + 1, st);
      DepthDoesNotShow(env, els, depth + 1, depth' + 1, Exec(env, body, depth + 1, st).st);
    case _ =>
  }

  // ---------- blocks taken away ----------

  lemma {:induction false} BodyInlined<S>(env: Env<S>, body: Prog, next: Prog, depth: nat, st: S)
    requires NestsWell(body, depth + 1)
    ensures Exec(env, Append(body, next), depth, st)
         == AndThen(Exec(env, body, depth + 1, st), Exec(env, next, depth, Exec(env, body, depth + 1, st).st))
  {
    NestsLess(body, depth);
    DepthDoesNotShow(env, body, depth, depth + 1, st);
    ExecAppend(env, body, next, depth, st);
  }

  /**
   * A conditional is the branches that are run, in their place: both, one after the other, for a varying condition, and
   * for a uniform one the first if it holds and the second, if any, if it does not.
   */
  lemma IfInlined<S>(env: Env<S>, cond: Operand, body: Prog, next: Prog, depth: nat, st: S)
    requires NestsWell(If(cond, body, next), depth)
    ensures Exec(env, If(cond, body, next), depth, st)
         == if cond.varying || env.mask(cond, st) then Exec(env, Append(body, next), depth, st)
            else Exec(env, next, depth, st)
  {
    BodyInlined(env, body, next, depth, st);
  }

  lemma IfElseInlined<S>(env: Env<S>, cond: Operand, body: Prog, els: Prog, next: Prog, depth: nat, st: S)
    requires NestsWell(IfElse(cond, body, els, next), depth)
    ensures Exec(env, IfElse(cond, body, els, next), depth, st)
         == if cond.varying then Exec(env, Append(body, Append(els, next)), depth, st)
            else if env.mask(cond, st) then Exec(env, Append(body, next), depth, st)
            else Exec(env, Append(els, next), depth, st)
  {
    BodyInlined(env, body, next, depth, st);
    BodyInlined(env, els, next, depth, st);
    BodyInlined(env, body, Append(els, next), depth, st);
    BodyInlined(env, els, next, depth, Exec(env, body, depth + 1, st).st);
  }

  /** A solar block is its body on the data that its own effect leaves. */
  lemma SolarInlined<S>(env: Env<S>, a: bool, opers: seq<Operand>, body: Prog, next: Prog, st: S)
    requires NestsWell(SolarBlock(a, opers, body, next), 0)
    ensures Exec(env, SolarBlock(a, opers, body, next), 0, st)
            == Exec(env, Append(body, next), 0, env.solar(a, opers, st))
  {
    BodyInlined(env, body, next, 0, env.solar(a, opers, st));
  }

  /** An illuminance loop is its body for each active light in turn, each on the data that light leaves. */
  lemma {:induction false} LightsInlined<S>(env: Env<S>, body: Prog, lights: seq<nat>, st: S)
    requires NestsWell(body, 1)
    ensures RunFor(env, body, lights, st)
         == if lights == [] then Normal(st)
            else var r := Exec(env, body, 0, env.light(lights[0], st)); AndThen(r, RunFor(env, body, lights[1..], r.st))
  {
    if lights != [] {
      NestsLess(body, 0);
      DepthDoesNotShow(env, body, 0, 1, env.light(lights[0], st));
    }
  }

  /** The effects of instructions that only fall through, one after the other. */
  function Effects<S>(env: Env<S>, ops: seq<(nat, seq<Operand>)>, st: S): S {
    if ops == [] then st else Effects(env, ops[1..], env.exec(ops[0].0, ops[0].1, st))
  }

  function Straight(ops: seq<(nat, seq<Operand>)>, next: Prog): Prog {
    if ops == [] then next else Op(ops[0].0, ops[0].1, Straight(ops[1..], next))
  }

  /** Straight code has the effects of its instructions in order, and a return ends it there. */
  lemma {:induction false} StraightRuns<S>(env: Env<S>, ops: seq<(nat, seq<Operand>)>, more: Prog, depth: nat, st: S)
    ensures Exec(env, Straight(ops, Done), depth, st) == Normal(Effects(env, ops, st))
    ensures Exec(env, Straight(ops, RetThen(more)), depth, st) == Returned(Effects(env, ops, st))
  {
    if ops != [] {
      StraightRuns(env, ops[1..], more, depth, env.exec(ops[0].0, ops[0].1, st));
    }
  }

  // ---------- the depth that is too much ----------

  /** n conditionals, one in the other. */
  function Nest(n: nat, cond: Operand): Prog { if n == 0 then Done else If(cond, Nest(n - 1, cond), Done) }

  /** Sixteen nested blocks run, and no more. */
  lemma {:induction false} SixteenAtMost<S>(env: Env<S>, n: nat, cond: Operand, depth: nat, st: S)
    requires cond.varying && depth <= 16
    ensures Exec(env, Nest(n, cond), depth, st) == if depth + n <= 16 then Normal(st) else Error(st)
  {
    if n > 0 && depth < 16 {
      SixteenAtMost(env, n - 1, cond, depth + 1, st);
    }
  }
}
