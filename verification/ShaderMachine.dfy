/** The shader virtual machine: a program counter, a bounded funcop stack and the illuminance loop state. */
module ShaderMachine {
  import opened Common
  import opened ShaderCode

  /** The flag combinations that the instructions push on the funcop stack. */
  datatype Flag = FlgIfTrue(wasTrue: bool, vary: bool) | FlgOrElse | FlgSolar | FlgIlluminance

  /** The illuminance context: inactive, or the start of the loop body and the next active light to visit. */
  datatype IllumCtx = Inactive | Active(bodyStart: nat, lightIdx: nat)

  /**
   * What the machine does not interpret, for any type `S` of shading data: the effect of a fall-through
   * instruction, the value of a uniform boolean, the effect of a solar instruction, a whole run of the
   * shader of an active light, and which active lights are ambient.
   */
  datatype Env<!S> = Env(
    exec: (nat, seq<Operand>, S) -> S,
    mask: (Operand, S) -> bool,
    solar: (bool, seq<Operand>, S) -> S,
    light: (nat, S) -> S,
    ambient: seq<bool>)

  datatype Config<S> = Config(pc: nat, stack: seq<Flag>, illum: IllumCtx, st: S)

  /**
   * Halted: the run returned. Failed: an instruction threw and the run was abandoned.
   * Undefined: the code read a word that is not an instruction.
   */
  datatype Outcome<S> = Running(c: Config<S>) | Halted(st: S) | Failed(st: S) | Undefined

  /** The operands of the instruction at `pc`, if they are all there. */
  predicate HasInstr(code: seq<Word>, pc: nat) {
    && pc < |code| && code[pc].OpWord?
    && pc + OperCnt(code[pc].op) < |code|
    && forall i :: pc < i <= pc + OperCnt(code[pc].op) ==> IsOper(code, i)
  }

  predicate IsOper(code: seq<Word>, i: nat) { i < |code| && code[i].OperWord? }

  function Opers(code: seq<Word>, pc: nat): (opers: seq<Operand>)
    requires HasInstr(code, pc)
    ensures |opers| == OperCnt(code[pc].op)
  {
    seq(OperCnt(code[pc].op), i requires 0 <= i < OperCnt(code[pc].op) =>
      assert IsOper(code, pc + 1 + i); code[pc + 1 + i].operand)
  }

  function NextPC(code: seq<Word>, pc: nat): nat
    requires HasInstr(code, pc)
  {
    pc + 1 + OperCnt(code[pc].op)
  }

  /** Jump to `address`, then move past the instruction found there. */
  function JumpPast<S>(code: seq<Word>, c: Config<S>, address: nat): Outcome<S> {
    if HasInstr(code, address) then Running(c.(pc := NextPC(code, address))) else Undefined
  }

  function Push<S>(c: Config<S>, flag: Flag): Outcome<S> {
    if |c.stack| < MAX_N then Running(c.(stack := c.stack + [flag])) else Failed(c.st)
  }

  /** The first light at or after `i` that is not ambient, or the number of lights. */
  function NextLight(ambient: seq<bool>, i: nat): (r: nat)
    ensures i <= |ambient| ==> i <= r <= |ambient|
    ensures i <= r && (r < |ambient| ==> !ambient[r])
    ensures forall k :: i <= k < r && k < |ambient| ==> ambient[k]
    decreases |ambient| - i
  {
    if i < |ambient| && ambient[i] then NextLight(ambient, i + 1) else i
  }

  function StepIfTrue<S>(code: seq<Word>, env: Env<S>, c: Config<S>): Outcome<S>
    requires HasInstr(code, c.pc) && code[c.pc].op.IfTrue?
  {
    var cond := Opers(code, c.pc)[0];
    if cond.varying then Push(c.(pc := NextPC(code, c.pc)), FlgIfTrue(false, true))
    else if env.mask(cond, c.st) then Push(c.(pc := NextPC(code, c.pc)), FlgIfTrue(true, false))
    else Push(c.(pc := code[c.pc].endAddr), FlgIfTrue(false, false))
  }

  function StepOrElse<S>(code: seq<Word>, c: Config<S>): Outcome<S>
    requires HasInstr(code, c.pc) && code[c.pc].op.OrElse?
  {
    if c.stack == [] then Failed(c.st)
    else
      var flag := c.stack[|c.stack| - 1];
      var popped := c.(stack := c.stack[..|c.stack| - 1]);
      if flag.FlgIfTrue? && !flag.vary && flag.wasTrue then JumpPast(code, popped, code[c.pc].endAddr)
      else Push(popped.(pc := NextPC(code, c.pc)), FlgOrElse)
  }

  function StepFuncopEnd<S>(code: seq<Word>, env: Env<S>, c: Config<S>): Outcome<S>
    requires HasInstr(code, c.pc) && code[c.pc].op.FuncopEnd?
  {
    if c.stack == [] then Failed(c.st)
    else
      var popped := c.(stack := c.stack[..|c.stack| - 1], pc := NextPC(code, c.pc));
      if c.stack[|c.stack| - 1].FlgIlluminance? then
        if c.illum.Active? && NextLight(env.ambient, c.illum.lightIdx) < |env.ambient| then
          var i := NextLight(env.ambient, c.illum.lightIdx);
          Running(c.(pc := c.illum.bodyStart, illum := c.illum.(lightIdx := i + 1), st := env.light(i, c.st)))
        else Running(popped.(illum := Inactive))
      else Running(popped)
  }

  function StepIlluminance<S>(code: seq<Word>, env: Env<S>, c: Config<S>): Outcome<S>
    requires HasInstr(code, c.pc) && code[c.pc].op.Illuminance?
  {
    if c.stack != [] then Failed(c.st)
    else if |env.ambient| == 0 then JumpPast(code, c, code[c.pc].endAddr)
    else Push(c.(pc := code[c.pc].endAddr, illum := Active(NextPC(code, c.pc), 0)), FlgIlluminance)
  }

  function StepSolar<S>(code: seq<Word>, env: Env<S>, c: Config<S>): Outcome<S>
    requires HasInstr(code, c.pc) && code[c.pc].op.Solar?
  {
    if c.stack != [] then Failed(c.st)
    else Push(c.(pc := NextPC(code, c.pc), st := env.solar(code[c.pc].op.solarAxisAngle, Opers(code, c.pc), c.st)),
              FlgSolar)
  }

  /** One turn of the fetch / execute loop. */
  function Step<S>(code: seq<Word>, env: Env<S>, c: Config<S>): Outcome<S> {
    if c.pc >= |code| then Halted(c.st)
    else if !HasInstr(code, c.pc) then Undefined
    else
      match code[c.pc].op
      case Ret => Halted(c.st)
      case Simple(id, _) => Running(c.(pc := NextPC(code, c.pc), st := env.exec(id, Opers(code, c.pc), c.st)))
      case IfTrue => StepIfTrue(code, env, c)
      case OrElse => StepOrElse(code, c)
      case FuncopEnd => StepFuncopEnd(code, env, c)
      case Illuminance(_) => StepIlluminance(code, env, c)
      case Solar(_) => StepSolar(code, env, c)
  }

  /** At most `n` turns of the fetch loop. */
  function Steps<S>(code: seq<Word>, env: Env<S>, o: Outcome<S>, n: nat): Outcome<S> {
    Turns((c: Config<S>) => Step(code, env, c), o, n)
  }

  function Turns<S>(step: Config<S> -> Outcome<S>, o: Outcome<S>, n: nat): Outcome<S>
    decreases n
  {
    if n == 0 || !o.Running? then o else Turns(step, step(o.c), n - 1)
  }

  lemma StepsCompose<S>(code: seq<Word>, env: Env<S>, o: Outcome<S>, m: nat, n: nat)
    ensures Steps(code, env, o, m + n) == Steps(code, env, Steps(code, env, o, m), n)
  {
    TurnsCompose((c: Config<S>) => Step(code, env, c), o, m, n);
  }

  lemma {:induction false} TurnsCompose<S>(step: Config<S> -> Outcome<S>, o: Outcome<S>, m: nat, n: nat)
    ensures Turns(step, o, m + n) == Turns(step, Turns(step, o, m), n)
    decreases m
  {
    if m != 0 && o.Running? {
      TurnsCompose(step, step(o.c), m - 1, n);
    }
  }

  lemma StepsUnfold<S>(code: seq<Word>, env: Env<S>, o: Outcome<S>, n: nat)
    ensures Steps(code, env, o, n) ==
              if n == 0 || !o.Running? then o else Steps(code, env, Step(code, env, o.c), n - 1)
  {
  }

  // ---------- structured execution ----------

  datatype Result<S> = Normal(st: S) | Returned(st: S) | Error(st: S)

  /**
   * The meaning of a block-structured program, without addresses or flags. `depth` is the number of
   * enclosing blocks: a seventeenth nested block, or a lighting block inside any block, is an error.
   */
  function Exec<S>(env: Env<S>, p: Prog, depth: nat, st: S): Result<S>
    decreases p, 2
  {
    if p.Done? then Normal(st)
    else
      var r := ExecStmt(env, p, depth, st);
      if r.Normal? then Exec(env, p.next, depth, r.st) else r
  }

  function ExecStmt<S>(env: Env<S>, p: Prog, depth: nat, st: S): Result<S>
    requires !p.Done?
    decreases p, 1
  {
    match p
    case RetThen(_) => Returned(st)
    case Op(id, opers, _) => Normal(env.exec(id, opers, st))
    case If(cond, body, _) =>
      if depth >= MAX_N then Error(st)
      else if cond.varying || env.mask(cond, st) then Exec(env, body, depth + 1, st)
      else Normal(st)
    case IfElse(cond, body, els, _) =>
      if depth >= MAX_N then Error(st)
      else if cond.varying then
        var r := Exec(env, body, depth + 1, st);
        if r.Normal? then Exec(env, els, depth + 1, r.st) else r
      else if env.mask(cond, st) then Exec(env, body, depth + 1, st)
      else Exec(env, els, depth + 1, st)
    case Illum(_, _, body, _) =>
      if depth > 0 then Error(st) else ExecLights(env, body, 0, st)
    case SolarBlock(a, opers, body, _) =>
      if depth > 0 then Error(st) else Exec(env, body, 1, env.solar(a, opers, st))
  }

  /** The illuminance loop: for each active light in order that is not ambient, run the light, then the body. */
  function ExecLights<S>(env: Env<S>, body: Prog, i: nat, st: S): Result<S>
    decreases body, 3, |env.ambient| - i
  {
    if i >= |env.ambient| then Normal(st)
    else if env.ambient[i] then ExecLights(env, body, i + 1, st)
    else
      var r := Exec(env, body, 1, env.light(i, st));
      if r.Normal? then ExecLights(env, body, i + 1, r.st) else r
  }

  lemma {:induction false} ExecLightsFromNext<S>(env: Env<S>, body: Prog, i: nat, st: S)
    ensures ExecLights(env, body, i, st) == ExecLights(env, body, NextLight(env.ambient, i), st)
    decreases |env.ambient| - i
  {
    if i < |env.ambient| && env.ambient[i] {
      ExecLightsFromNext(env, body, i + 1, st);
    }
  }

  /** The active lights from `i` on that are not ambient. */
  function Lit(ambient: seq<bool>, i: nat): seq<nat>
    decreases |ambient| - i
  {
    if i >= |ambient| then [] else (if ambient[i] then [] else [i]) + Lit(ambient, i + 1)
  }

  /** Each of them is there, once, in the order of the list. */
  lemma {:induction false} LitOnceInOrder(ambient: seq<bool>, i: nat)
    ensures forall k :: 0 <= k < |Lit(ambient, i)| ==>
              i <= Lit(ambient, i)[k] < |ambient| && !ambient[Lit(ambient, i)[k]]
    ensures forall j, k :: 0 <= j < k < |Lit(ambient, i)| ==> Lit(ambient, i)[j] < Lit(ambient, i)[k]
    ensures forall x :: i <= x < |ambient| && !ambient[x] ==> x in Lit(ambient, i)
    decreases |ambient| - i
  {
    if i < |ambient| {
      LitOnceInOrder(ambient, i + 1);
    }
  }

  /** A body run once for each of the given lights, until it returns or fails. */
  function RunFor<S>(env: Env<S>, body: Prog, lights: seq<nat>, st: S): Result<S> {
    if lights == [] then Normal(st)
    else
      var r := Exec(env, body, 1, env.light(lights[0], st));
      if r.Normal? then RunFor(env, body, lights[1..], r.st) else r
  }

  /** The illuminance loop runs its body exactly once, in order, for each active light that is not ambient. */
  lemma {:induction false} LightsRunOnceInOrder<S>(env: Env<S>, body: Prog, i: nat, st: S)
    ensures ExecLights(env, body, i, st) == RunFor(env, body, Lit(env.ambient, i), st)
    decreases |env.ambient| - i
  {
    if i < |env.ambient| {
      if env.ambient[i] {
        LightsRunOnceInOrder(env, body, i + 1, st);
        assert Lit(env.ambient, i) == Lit(env.ambient, i + 1);
      } else {
        LightsRunOnceInOrder(env, body, i + 1, Exec(env, body, 1, env.light(i, st)).st);
      }
    }
  }

  /** At most 16 nested blocks, and lighting blocks only outside any other block. */
  predicate NestsWell(p: Prog, depth: nat) {
    match p
    case Done => true
    case RetThen(next) => NestsWell(next, depth)
    case Op(_, _, next) => NestsWell(next, depth)
    case If(_, body, next) => depth < MAX_N && NestsWell(body, depth + 1) && NestsWell(next, depth)
    case IfElse(_, body, els, next) =>
      depth < MAX_N && NestsWell(body, depth + 1) && NestsWell(els, depth + 1) && NestsWell(next, depth)
    case Illum(_, _, body, next) => depth == 0 && NestsWell(body, 1) && NestsWell(next, depth)
    case SolarBlock(_, _, body, next) => depth == 0 && NestsWell(body, 1) && NestsWell(next, depth)
  }

  /** A well-nested program never throws, whatever its conditions and lights are. */
  lemma {:induction false} WellNestedNeverFails<S>(env: Env<S>, p: Prog, depth: nat, st: S)
    requires NestsWell(p, depth)
    ensures !Exec(env, p, depth, st).Error?
    decreases p, 1
  {
    if !p.Done? {
      match p {
        case RetThen(_) =>
        case Op(_, _, _) =>
        case If(_, body, _) => WellNestedNeverFails(env, body, depth + 1, st);
        case IfElse(_, body, els, _) =>
          WellNestedNeverFails(env, body, depth + 1, st);
          WellNestedNeverFails(env, els, depth + 1, st);
          WellNestedNeverFails(env, els, depth + 1, Exec(env, body, depth + 1, st).st);
        case Illum(_, _, body, _) => LightsNeverFail(env, body, 0, st);
        case SolarBlock(a, opers, body, _) => WellNestedNeverFails(env, body, 1, env.solar(a, opers, st));
      }
      WellNestedNeverFails(env, p.next, depth, ExecStmt(env, p, depth, st).st);
    }
  }

  lemma {:induction false} LightsNeverFail<S>(env: Env<S>, body: Prog, i: nat, st: S)
    requires NestsWell(body, 1)
    ensures !ExecLights(env, body, i, st).Error?
    decreases body, 2, |env.ambient| - i
  {
    if i < |env.ambient| {
      if env.ambient[i] {
        LightsNeverFail(env, body, i + 1, st);
      } else {
        WellNestedNeverFails(env, body, 1, env.light(i, st));
        LightsNeverFail(env, body, i + 1, Exec(env, body, 1, env.light(i, st)).st);
      }
    }
  }

  // ---------- the machine runs the assembled program ----------

  /** `ws` stands in `code` at `pc`. */
  ghost predicate HasWords(code: seq<Word>, pc: nat, ws: seq<Word>) {
    pc + |ws| <= |code| && forall i: nat :: WordAt(code, pc, ws, i)
  }

  ghost predicate WordAt(code: seq<Word>, pc: nat, ws: seq<Word>, i: nat) {
    i < |ws| && pc + i < |code| ==> code[pc + i] == ws[i]
  }

  /** The instructions of `p` stand in `code` from `pc` on, with what 16 bits keep of their end addresses. */
  ghost predicate Laid(code: seq<Word>, p: Prog, pc: nat)
    decreases p, 1
  {
    p.Done? || (LaidStmt(code, p, pc) && Laid(code, p.next, pc + StmtSize(p)))
  }

  ghost predicate LaidStmt(code: seq<Word>, p: Prog, pc: nat)
    requires !p.Done?
    decreases p, 0
  {
    match p
    case RetThen(_) => Opens(code, pc, Ret, [], INVALID_ADDR)
    case Op(id, opers, _) => Opens(code, pc, Simple(id, |opers|), opers, INVALID_ADDR)
    case If(cond, body, _) =>
      var end := pc + 2 + Size(body);
      Opens(code, pc, IfTrue, [cond], AsShort(end)) && Laid(code, body, pc + 2) && PlacedEnd(code, end)
    case IfElse(cond, body, els, _) =>
      var mid, els', end := pc + 2 + Size(body), ElsePC(body, pc), ElsePC(body, pc) + Size(els);
      && TwoOpen(code, cond, pc, AsShort(mid), mid, AsShort(end), end)
      && Laid(code, body, pc + 2) && Laid(code, els, els')
    case Illum(a, opers, body, _) =>
      var end := pc + 1 + |opers| + Size(body);
      && Opens(code, pc, Illuminance(a), opers, AsShort(end))
      && Laid(code, body, pc + 1 + |opers|) && PlacedEnd(code, end)
    case SolarBlock(a, opers, body, _) =>
      var end := pc + 1 + |opers| + Size(body);
      && Opens(code, pc, Solar(a), opers, AsShort(end))
      && Laid(code, body, pc + 1 + |opers|) && PlacedEnd(code, end)
  }

  /** The two opening instructions and the funcopend of an `iftrue` with an orelse. */
  ghost predicate TwoOpen(code: seq<Word>, cond: Operand, pc: nat, address: nat, mid: nat, address': nat, end: nat) {
    Opens(code, pc, IfTrue, [cond], address) && Opens(code, mid, OrElse, [], address') && PlacedEnd(code, end)
  }

  /** `p` stands in `code` at `pc`, and inside `depth` blocks its end addresses can be used. */
  ghost predicate Placed(code: seq<Word>, p: Prog, pc: nat, depth: nat) {
    Laid(code, p, pc) && AddressesFit(p, pc, depth)
  }

  ghost predicate PlacedStmt(code: seq<Word>, p: Prog, pc: nat, depth: nat)
    requires !p.Done?
  {
    LaidStmt(code, p, pc) && EachStmtEnd(p, pc, depth, Below())
  }

  /** The opcode, end address and operands of the instruction at `pc`. */
  function InstrAt(code: seq<Word>, pc: nat): Option<(OpCode, nat, seq<Operand>)> {
    if HasInstr(code, pc) then Some((code[pc].op, code[pc].endAddr, Opers(code, pc))) else None
  }

  ghost predicate Opens(code: seq<Word>, pc: nat, op: OpCode, opers: seq<Operand>, end: nat) {
    match InstrAt(code, pc)
    case Some(instr) => instr == (op, end, opers)
    case None => false
  }

  ghost predicate PlacedEnd(code: seq<Word>, pc: nat) {
    match InstrAt(code, pc)
    case Some(instr) => instr.0 == FuncopEnd
    case None => false
  }

  /** The outcome that stands for a structured result: past the code with the blocks around it unchanged. */
  function Expected<S>(r: Result<S>, c: Config<S>, pc: nat): Outcome<S> {
    match r
    case Normal(st) => Running(c.(pc := pc, st := st))
    case Returned(st) => Halted(st)
    case Error(st) => Failed(st)
  }

  ghost predicate Simulates<S>(code: seq<Word>, env: Env<S>, c: Config<S>, o: Outcome<S>) {
    exists n: nat :: Steps(code, env, Running(c), n) == o
  }

  lemma SimulatesStep<S>(code: seq<Word>, env: Env<S>, c: Config<S>, o: Outcome<S>)
    requires Step(code, env, c) == o
    ensures Simulates(code, env, c, o)
  {
    assert Steps(code, env, Running(c), 1) == o;
  }

  lemma SimulatesThen<S>(code: seq<Word>, env: Env<S>, c: Config<S>, d: Config<S>, o: Outcome<S>)
    requires Simulates(code, env, c, Running(d)) && Simulates(code, env, d, o)
    ensures Simulates(code, env, c, o)
  {
    var m: nat :| Steps(code, env, Running(c), m) == Running(d);
    var n: nat :| Steps(code, env, Running(d), n) == o;
    StepsCompose(code, env, Running(c), m, n);
  }

  lemma StepThen<S>(code: seq<Word>, env: Env<S>, c: Config<S>, d: Config<S>, o: Outcome<S>)
    requires Step(code, env, c) == Running(d) && Simulates(code, env, d, o)
    ensures Simulates(code, env, c, o)
  {
    SimulatesStep(code, env, c, Running(d));
    SimulatesThen(code, env, c, d, o);
  }

  // ---------- placement ----------

  lemma HasWordsSplit(code: seq<Word>, pc: nat, a: seq<Word>, b: seq<Word>)
    requires HasWords(code, pc, a + b)
    ensures HasWords(code, pc, a) && HasWords(code, pc + |a|, b)
  {
    var ab, pc' := a + b, pc + |a|;
    forall i: nat
      ensures WordAt(code, pc, a, i) && WordAt(code, pc', b, i)
    {
      assert WordAt(code, pc, ab, i) && WordAt(code, pc, ab, |a| + i);
    }
  }

  lemma HasSlice(code: seq<Word>, pc: nat, ws: seq<Word>)
    requires pc + |ws| <= |code| && code[pc..pc + |ws|] == ws
    ensures HasWords(code, pc, ws)
  {
    forall i: nat
      ensures WordAt(code, pc, ws, i)
    {
      assert i < |ws| ==> code[pc..pc + |ws|][i] == code[pc + i];
    }
  }

  lemma PlacedInstr(code: seq<Word>, pc: nat, op: OpCode, opers: seq<Operand>, endAddr: nat)
    requires |opers| == OperCnt(op) && HasWords(code, pc, Words(op, opers, endAddr))
    ensures Opens(code, pc, op, opers, endAddr)
  {
    var ws := Words(op, opers, endAddr);
    assert WordAt(code, pc, ws, 0);
    forall i | pc < i <= pc + OperCnt(op)
      ensures code[i] == OperWord(opers[i - pc - 1])
    {
      assert WordAt(code, pc, ws, i - pc);
    }
    assert forall i :: pc < i <= pc + OperCnt(op) ==> IsOper(code, i);
    assert Opers(code, pc) == opers;
  }

  lemma SplitWords(code: seq<Word>, pc: nat, ws: seq<Word>, a: seq<Word>, b: seq<Word>)
    requires Same(ws, a + b) && HasWords(code, pc, ws)
    ensures HasWords(code, pc, a) && HasWords(code, pc + |a|, b)
  {
    HasWordsSplit(code, pc, a, b);
  }

  lemma PlacedUnfold(code: seq<Word>, p: Prog, pc: nat, depth: nat, next: nat)
    requires Placed(code, p, pc, depth) && !p.Done? && next == pc + StmtSize(p)
    ensures PlacedStmt(code, p, pc, depth) && (!Stops(p, depth) ==> Placed(code, p.next, next, depth))
  {
    EndsUnfold(p, pc, depth, next, Below());
  }

  /** The words of a block without its end: the opening instruction, then whatever follows. */
  lemma BlockOpens(code: seq<Word>, pc: nat, op: OpCode, opers: seq<Operand>, end: nat, ws: seq<Word>)
    requires |opers| == OperCnt(op) && HasWords(code, pc, BlockWords(op, opers, end, ws))
    ensures Opens(code, pc, op, opers, AsShort(end)) && HasWords(code, pc + 1 + |opers|, ws)
  {
    HasWordsSplit(code, pc, Words(op, opers, AsShort(end)), ws);
    PlacedInstr(code, pc, op, opers, AsShort(end));
  }

  lemma PlacedEndFrom(code: seq<Word>, pc: nat)
    requires HasWords(code, pc, END_WORDS)
    ensures PlacedEnd(code, pc)
  {
    assert END_WORDS == Words(FuncopEnd, [], INVALID_ADDR);
    PlacedInstr(code, pc, FuncopEnd, [], INVALID_ADDR);
  }

  /** A whole block: the opening instruction, its body and its funcopend. */
  lemma BlockCloses(code: seq<Word>, pc: nat, whole: seq<Word>, op: OpCode, opers: seq<Operand>, end: nat,
                    ws: seq<Word>)
    requires |opers| == OperCnt(op) && HasWords(code, pc, whole)
    requires Same(whole, BlockWords(op, opers, end, ws) + END_WORDS) && end == pc + 1 + |opers| + |ws|
    ensures Opens(code, pc, op, opers, AsShort(end)) && HasWords(code, pc + 1 + |opers|, ws) && PlacedEnd(code, end)
  {
    HasWordsSplit(code, pc, BlockWords(op, opers, end, ws), END_WORDS);
    BlockOpens(code, pc, op, opers, end, ws);
    PlacedEndFrom(code, end);
  }

  /** An `iftrue` with an orelse: two blocks and one funcopend. */
  lemma TwoBlocks(code: seq<Word>, pc: nat, whole: seq<Word>, cond: Operand, mid: nat, ws: seq<Word>, end: nat,
                  ws': seq<Word>)
    requires HasWords(code, pc, whole) && Same(whole, TwoBlockWords(cond, mid, ws, end, ws'))
    requires mid == pc + 2 + |ws| && end == mid + 1 + |ws'|
    ensures TwoOpen(code, cond, pc, AsShort(mid), mid, AsShort(end), end)
    ensures HasWords(code, pc + 2, ws) && HasWords(code, mid + 1, ws')
  {
    var rest := BlockWords(OrElse, [], end, ws') + END_WORDS;
    HasWordsSplit(code, pc, BlockWords(IfTrue, [cond], mid, ws), rest);
    BlockOpens(code, pc, IfTrue, [cond], mid, ws);
    BlockCloses(code, mid, rest, OrElse, [], end, ws');
  }

  // ---------- where the words stand, the instructions do ----------

  /** `ws` is what a program is assembled to at `pc`. */
  ghost predicate IsFlat(ws: seq<Word>, p: Prog, pc: nat) {
    |ws| == Size(p) && forall k: nat :: IsFlatWord(ws, p, pc, k)
  }

  ghost predicate IsFlatWord(ws: seq<Word>, p: Prog, pc: nat, k: nat) {
    k < |ws| && k < Size(p) ==> ws[k] == Flat(p, pc)[k]
  }

  ghost predicate IsFlatStmt(ws: seq<Word>, p: Prog, pc: nat)
    requires !p.Done?
  {
    |ws| == StmtSize(p) && forall k: nat :: IsFlatStmtWord(ws, p, pc, k)
  }

  ghost predicate IsFlatStmtWord(ws: seq<Word>, p: Prog, pc: nat, k: nat)
    requires !p.Done?
  {
    k < |ws| && k < StmtSize(p) ==> ws[k] == FlatStmt(p, pc)[k]
  }

  lemma FlatOnce(p: Prog, pc: nat, a: seq<Word>, b: seq<Word>)
    requires IsFlat(a, p, pc) && IsFlat(b, p, pc)
    ensures a == b
  {
    forall k: nat | k < |a|
      ensures a[k] == b[k]
    {
      assert IsFlatWord(a, p, pc, k) && IsFlatWord(b, p, pc, k);
    }
  }

  lemma FlatStmtOnce(p: Prog, pc: nat, a: seq<Word>, b: seq<Word>)
    requires !p.Done? && IsFlatStmt(a, p, pc) && IsFlatStmt(b, p, pc)
    ensures a == b
  {
    forall k: nat | k < |a|
      ensures a[k] == b[k]
    {
      assert IsFlatStmtWord(a, p, pc, k) && IsFlatStmtWord(b, p, pc, k);
    }
  }

  lemma FlatOf(p: Prog, pc: nat) returns (ws: seq<Word>)
    ensures IsFlat(ws, p, pc) && Same(ws, Flat(p, pc))
  {
    ws := Flat(p, pc);
  }

  lemma FlatStmtOf(p: Prog, pc: nat) returns (ws: seq<Word>)
    requires !p.Done?
    ensures IsFlatStmt(ws, p, pc) && Same(ws, FlatStmt(p, pc))
  {
    ws := FlatStmt(p, pc);
  }

  /** The words of a program assembled at `pc` stand in `code` there. */
  ghost predicate FlatAt(code: seq<Word>, p: Prog, pc: nat) {
    exists ws :: IsFlat(ws, p, pc) && HasWords(code, pc, ws)
  }

  ghost predicate FlatStmtAt(code: seq<Word>, p: Prog, pc: nat)
    requires !p.Done?
  {
    exists ws :: IsFlatStmt(ws, p, pc) && HasWords(code, pc, ws)
  }

  lemma FlatStmtWords(code: seq<Word>, p: Prog, pc: nat, whole: seq<Word>)
    requires !p.Done? && FlatStmtAt(code, p, pc) && IsFlatStmt(whole, p, pc)
    ensures HasWords(code, pc, whole)
  {
    var ws :| IsFlatStmt(ws, p, pc) && HasWords(code, pc, ws);
    FlatStmtOnce(p, pc, ws, whole);
  }

  lemma FlatParts(p: Prog, pc: nat, next: nat) returns (whole: seq<Word>, stmt: seq<Word>, rest: seq<Word>)
    requires !p.Done? && next == pc + StmtSize(p)
    ensures IsFlat(whole, p, pc) && IsFlatStmt(stmt, p, pc) && IsFlat(rest, p.next, next) && Same(whole, stmt + rest)
  {
    whole := FlatOf(p, pc);
    stmt := FlatStmtOf(p, pc);
    rest := FlatOf(p.next, next);
  }

  lemma FlatUnfold(code: seq<Word>, p: Prog, pc: nat, next: nat)
    requires FlatAt(code, p, pc) && !p.Done? && next == pc + StmtSize(p)
    ensures FlatStmtAt(code, p, pc) && FlatAt(code, p.next, next)
  {
    var ws :| IsFlat(ws, p, pc) && HasWords(code, pc, ws);
    var whole, stmt, rest := FlatParts(p, pc, next);
    FlatOnce(p, pc, ws, whole);
    HasWordsSplit(code, pc, stmt, rest);
  }

  /** The words of a block with one body, and those of the body. */
  lemma BlockParts(p: Prog, pc: nat, op: OpCode, opers: seq<Operand>, body: nat, end: nat)
    returns (whole: seq<Word>, ws: seq<Word>)
    requires p.If? || p.Illum? || p.SolarBlock?
    requires op == if p.If? then IfTrue else if p.Illum? then Illuminance(p.axisAngle) else Solar(p.axisAngle)
    requires opers == if p.If? then [p.cond] else p.opers
    requires body == pc + 1 + |opers| && end == body + Size(p.body)
    ensures IsFlatStmt(whole, p, pc) && IsFlat(ws, p.body, body)
    ensures Same(whole, BlockWords(op, opers, end, ws) + END_WORDS)
  {
    whole := FlatStmtOf(p, pc);
    ws := FlatOf(p.body, body);
  }

  lemma OneBlock(code: seq<Word>, p: Prog, pc: nat, op: OpCode, opers: seq<Operand>, body: nat, end: nat)
    requires (p.If? || p.Illum? || p.SolarBlock?) && |opers| == OperCnt(op) && FlatStmtAt(code, p, pc)
    requires op == if p.If? then IfTrue else if p.Illum? then Illuminance(p.axisAngle) else Solar(p.axisAngle)
    requires opers == if p.If? then [p.cond] else p.opers
    requires body == pc + 1 + |opers| && end == body + Size(p.body)
    ensures Opens(code, pc, op, opers, AsShort(end)) && PlacedEnd(code, end) && FlatAt(code, p.body, body)
  {
    var whole, ws := BlockParts(p, pc, op, opers, body, end);
    FlatStmtWords(code, p, pc, whole);
    BlockCloses(code, pc, whole, op, opers, end, ws);
  }

  lemma IfElseParts(p: Prog, pc: nat, mid: nat, elsePC: nat, end: nat)
    returns (whole: seq<Word>, ws: seq<Word>, ws': seq<Word>)
    requires p.IfElse? && mid == pc + 2 + Size(p.body) && elsePC == ElsePC(p.body, pc) && end == elsePC + Size(p.els)
    ensures IsFlatStmt(whole, p, pc) && IsFlat(ws, p.body, pc + 2) && IsFlat(ws', p.els, elsePC)
    ensures Same(whole, TwoBlockWords(p.cond, mid, ws, end, ws'))
  {
    whole := FlatStmtOf(p, pc);
    ws := FlatOf(p.body, pc + 2);
    ws' := FlatOf(p.els, elsePC);
  }

  lemma IfElseWords(code: seq<Word>, p: Prog, pc: nat, mid: nat, elsePC: nat, end: nat)
    requires p.IfElse? && FlatStmtAt(code, p, pc)
    requires mid == pc + 2 + Size(p.body) && elsePC == ElsePC(p.body, pc) && end == elsePC + Size(p.els)
    ensures TwoOpen(code, p.cond, pc, AsShort(mid), mid, AsShort(end), end)
    ensures FlatAt(code, p.body, pc + 2) && FlatAt(code, p.els, elsePC)
  {
    var whole, ws, ws' := IfElseParts(p, pc, mid, elsePC, end);
    FlatStmtWords(code, p, pc, whole);
    TwoBlocks(code, pc, whole, p.cond, mid, ws, end, ws');
  }

  lemma PlainWords(code: seq<Word>, p: Prog, pc: nat)
    requires (p.RetThen? || p.Op?) && FlatStmtAt(code, p, pc)
    ensures LaidStmt(code, p, pc)
  {
    var whole := FlatStmtOf(p, pc);
    FlatStmtWords(code, p, pc, whole);
    if p.RetThen? {
      PlacedInstr(code, pc, Ret, [], INVALID_ADDR);
    } else {
      PlacedInstr(code, pc, Simple(p.id, |p.opers|), p.opers, INVALID_ADDR);
    }
  }

  /** Where the words of a well-formed program stand, its instructions do. */
  lemma {:induction false} FlatIsLaid(code: seq<Word>, p: Prog, pc: nat)
    requires WellFormed(p) && FlatAt(code, p, pc)
    ensures Laid(code, p, pc)
    decreases p, 1
  {
    if !p.Done? {
      FlatUnfold(code, p, pc, pc + StmtSize(p));
      FlatStmtIsLaid(code, p, pc);
      FlatIsLaid(code, p.next, pc + StmtSize(p));
    }
  }

  lemma {:induction false} FlatStmtIsLaid(code: seq<Word>, p: Prog, pc: nat)
    requires !p.Done? && StmtWellFormed(p) && FlatStmtAt(code, p, pc)
    ensures LaidStmt(code, p, pc)
    decreases p, 0, 1
  {
    match p
    case RetThen(_) => PlainWords(code, p, pc);
    case Op(_, _, _) => PlainWords(code, p, pc);
    case If(cond, body, _) =>
      OneBlock(code, p, pc, IfTrue, [cond], pc + 2, pc + 2 + Size(body));
      FlatIsLaid(code, body, pc + 2);
    case IfElse(_, _, _, _) => FlatIfElseIsLaid(code, p, pc);
    case Illum(_, _, _, _) => FlatLightingIsLaid(code, p, pc, pc + 1 + |p.opers|);
    case SolarBlock(_, _, _, _) => FlatLightingIsLaid(code, p, pc, pc + 1 + |p.opers|);
  }

  lemma {:induction false} FlatLightingIsLaid(code: seq<Word>, p: Prog, pc: nat, body: nat)
    requires (p.Illum? || p.SolarBlock?) && StmtWellFormed(p) && FlatStmtAt(code, p, pc) && body == pc + 1 + |p.opers|
    ensures LaidStmt(code, p, pc)
    decreases p, 0, 0
  {
    var op := if p.Illum? then Illuminance(p.axisAngle) else Solar(p.axisAngle);
    OneBlock(code, p, pc, op, p.opers, body, pc + 1 + |p.opers| + Size(p.body));
    FlatIsLaid(code, p.body, body);
  }

  lemma {:induction false} FlatIfElseIsLaid(code: seq<Word>, p: Prog, pc: nat)
    requires p.IfElse? && StmtWellFormed(p) && FlatStmtAt(code, p, pc)
    ensures LaidStmt(code, p, pc)
    decreases p, 0, 0
  {
    IfElseWords(code, p, pc, pc + 2 + Size(p.body), ElsePC(p.body, pc), ElsePC(p.body, pc) + Size(p.els));
    FlatIsLaid(code, p.body, pc + 2);
    FlatIsLaid(code, p.els, ElsePC(p.body, pc));
  }

  // ---------- which end addresses have to be right ----------

  /** The word at e.at carries the address e.target. */
  ghost function Carries(code: seq<Word>): End -> bool {
    (e: End) => e.at < |code| && code[e.at].OpWord? && code[e.at].endAddr == e.target
  }

  /** The word at e.at carries what 16 bits keep of the address e.target. */
  ghost function CarriesShort(code: seq<Word>): End -> bool {
    (e: End) => e.at < |code| && code[e.at].OpWord? && code[e.at].endAddr == AsShort(e.target)
  }

  lemma {:induction false} EndsAreShort(code: seq<Word>, p: Prog, pc: nat, depth: nat)
    requires Laid(code, p, pc)
    ensures EachEnd(p, pc, depth, CarriesShort(code))
    decreases p, 1
  {
    if !p.Done? {
      var next := pc + StmtSize(p);
      StmtEndsAreShort(code, p, pc, depth);
      if !Stops(p, depth) {
        EndsAreShort(code, p.next, next, depth);
      }
      EndsUnfold(p, pc, depth, next, CarriesShort(code));
    }
  }

  lemma {:induction false} StmtEndsAreShort(code: seq<Word>, p: Prog, pc: nat, depth: nat)
    requires !p.Done? && LaidStmt(code, p, pc)
    ensures EachStmtEnd(p, pc, depth, CarriesShort(code))
    decreases p, 0, 1
  {
    if !Stops(p, depth) {
      match p {
        case Op(_, _, _) =>
        case If(_, body, _) =>
          EndsAreShort(code, body, pc + 2, depth + 1);
          EndsOfIf(p, pc, depth, pc + 2 + Size(body), CarriesShort(code));
        case IfElse(_, _, _, _) => IfElseEndsAreShort(code, p, pc, depth);
        case Illum(_, opers, body, _) =>
          EndsAreShort(code, body, pc + 1 + |opers|, depth + 1);
          EndsOfIllum(p, pc, depth, pc + 1 + |opers|, pc + 1 + |opers| + Size(body), CarriesShort(code));
        case SolarBlock(_, opers, body, _) =>
          EndsAreShort(code, body, pc + 1 + |opers|, depth + 1);
          EndsOfSolar(p, pc, depth, pc + 1 + |opers|, CarriesShort(code));
      }
    }
  }

  lemma {:induction false} IfElseEndsAreShort(code: seq<Word>, p: Prog, pc: nat, depth: nat)
    requires p.IfElse? && LaidStmt(code, p, pc) && !Stops(p, depth)
    ensures EachStmtEnd(p, pc, depth, CarriesShort(code))
    decreases p, 0, 0
  {
    var mid := pc + 2 + Size(p.body);
    EndsAreShort(code, p.body, pc + 2, depth + 1);
    EndsAreShort(code, p.els, mid + 1, depth + 1);
    EndsOfIfElse(p, pc, depth, mid, mid + 1 + Size(p.els), CarriesShort(code));
  }

  lemma ShortIsRightBelow(code: seq<Word>, e: End)
    requires CarriesShort(code)(e)
    ensures Carries(code)(e) <==> Below()(e)
  {
    assert AsShort(e.target) == e.target <==> e.target < ADDRESSES;
  }

  /**
   * The condition on addresses is exact: wherever a program is laid out, all the end addresses that can be read are
   * the true ones if and only if it holds.
   */
  lemma EndsRightExactly(code: seq<Word>, p: Prog, pc: nat, depth: nat)
    requires Laid(code, p, pc)
    ensures EachEnd(p, pc, depth, Carries(code)) <==> AddressesFit(p, pc, depth)
  {
    EndsAreShort(code, p, pc, depth);
    forall e | IsEnd(p, pc, depth, e)
      ensures Carries(code)(e) <==> Below()(e)
    {
      ShortIsRightBelow(code, e);
    }
  }

  // ---------- simulation ----------

  /** What the simulation needs of a configuration. */
  ghost predicate Ready<S>(c: Config<S>) {
    |c.stack| <= MAX_N && (c.stack == [] ==> c.illum.Inactive?)
  }

  /** `c` inside one more block. */
  function Inside<S>(c: Config<S>, flag: Flag, pc: nat): Config<S> {
    c.(stack := c.stack + [flag], pc := pc)
  }

  /** The funcopend of an `iftrue`, `orelse` or `solar` block leaves the block. */
  lemma LeavesBlock<S>(code: seq<Word>, env: Env<S>, c: Config<S>, flag: Flag, end: nat)
    requires PlacedEnd(code, end) && !flag.FlgIlluminance?
    ensures Step(code, env, Inside(c, flag, end)) == Running(c.(pc := end + 1))
  {
    var d := Inside(c, flag, end);
    assert d.stack[..|d.stack| - 1] == c.stack;
  }

  lemma EndsBlock<S>(code: seq<Word>, env: Env<S>, c: Config<S>, flag: Flag, end: nat)
    requires PlacedEnd(code, end) && !flag.FlgIlluminance?
    ensures Simulates(code, env, Inside(c, flag, end), Running(c.(pc := end + 1)))
  {
    LeavesBlock(code, env, c, flag, end);
    SimulatesStep(code, env, Inside(c, flag, end), Running(c.(pc := end + 1)));
  }

  // ---------- single instructions ----------

  function IfFlag(cond: Operand): Flag { if cond.varying then FlgIfTrue(false, true) else FlgIfTrue(true, false) }

  lemma IfTooDeep<S>(code: seq<Word>, env: Env<S>, c: Config<S>, cond: Operand, end: nat)
    requires Opens(code, c.pc, IfTrue, [cond], end) && |c.stack| >= MAX_N
    ensures Simulates(code, env, c, Failed(c.st))
  {
    SimulatesStep(code, env, c, Failed(c.st));
  }

  lemma EntersIf<S>(code: seq<Word>, env: Env<S>, c: Config<S>, cond: Operand, end: nat, o: Outcome<S>)
    requires Opens(code, c.pc, IfTrue, [cond], end) && |c.stack| < MAX_N && (cond.varying || env.mask(cond, c.st))
    requires Simulates(code, env, Inside(c, IfFlag(cond), c.pc + 2), o)
    ensures Simulates(code, env, c, o)
  {
    StepThen(code, env, c, Inside(c, IfFlag(cond), c.pc + 2), o);
  }

  lemma SkipsIf<S>(code: seq<Word>, env: Env<S>, c: Config<S>, cond: Operand, end: nat, o: Outcome<S>)
    requires Opens(code, c.pc, IfTrue, [cond], end) && |c.stack| < MAX_N && !cond.varying && !env.mask(cond, c.st)
    requires Simulates(code, env, Inside(c, FlgIfTrue(false, false), end), o)
    ensures Simulates(code, env, c, o)
  {
    StepThen(code, env, c, Inside(c, FlgIfTrue(false, false), end), o);
  }

  /** After an `iftrue` that was not uniformly true, the orelse body is entered. */
  lemma EntersOrElse<S>(code: seq<Word>, env: Env<S>, c: Config<S>, vary: bool, pc: nat, end: nat, o: Outcome<S>)
    requires Opens(code, pc, OrElse, [], end) && |c.stack| < MAX_N
    requires Simulates(code, env, Inside(c, FlgOrElse, pc + 1), o)
    ensures Simulates(code, env, Inside(c, FlgIfTrue(false, vary), pc), o)
  {
    var d := Inside(c, FlgIfTrue(false, vary), pc);
    assert d.stack[..|d.stack| - 1] == c.stack;
    StepThen(code, env, d, Inside(c, FlgOrElse, pc + 1), o);
  }

  lemma SkipsOrElse<S>(code: seq<Word>, env: Env<S>, c: Config<S>, pc: nat, end: nat)
    requires Opens(code, pc, OrElse, [], end) && PlacedEnd(code, end)
    ensures Simulates(code, env, Inside(c, FlgIfTrue(true, false), pc), Running(c.(pc := end + 1)))
  {
    var d := Inside(c, FlgIfTrue(true, false), pc);
    assert d.stack[..|d.stack| - 1] == c.stack;
    SimulatesStep(code, env, d, Running(c.(pc := end + 1)));
  }

  lemma EntersSolar<S>(code: seq<Word>, env: Env<S>, c: Config<S>, a: bool, opers: seq<Operand>, end: nat,
                       o: Outcome<S>)
    requires Opens(code, c.pc, Solar(a), opers, end) && c.stack == []
    requires Simulates(code, env, Inside(c.(st := env.solar(a, opers, c.st)), FlgSolar, c.pc + 1 + |opers|), o)
    ensures Simulates(code, env, c, o)
  {
    StepThen(code, env, c, Inside(c.(st := env.solar(a, opers, c.st)), FlgSolar, c.pc + 1 + |opers|), o);
  }

  lemma LightingInside<S>(code: seq<Word>, env: Env<S>, c: Config<S>, op: OpCode, opers: seq<Operand>, end: nat)
    requires Opens(code, c.pc, op, opers, end) && (op.Solar? || op.Illuminance?) && c.stack != []
    ensures Simulates(code, env, c, Failed(c.st))
  {
    SimulatesStep(code, env, c, Failed(c.st));
  }

  lemma EntersIllum<S>(code: seq<Word>, env: Env<S>, c: Config<S>, a: bool, opers: seq<Operand>, end: nat,
                       o: Outcome<S>)
    requires Opens(code, c.pc, Illuminance(a), opers, end) && c.stack == [] && |env.ambient| > 0
    requires Simulates(code, env, Config(end, [FlgIlluminance], Active(c.pc + 1 + |opers|, 0), c.st), o)
    ensures Simulates(code, env, c, o)
  {
    assert [] + [FlgIlluminance] == [FlgIlluminance];
    StepThen(code, env, c, Config(end, [FlgIlluminance], Active(c.pc + 1 + |opers|, 0), c.st), o);
  }

  lemma SkipsIllum<S>(code: seq<Word>, env: Env<S>, c: Config<S>, a: bool, opers: seq<Operand>, end: nat)
    requires Opens(code, c.pc, Illuminance(a), opers, end) && c.stack == [] && |env.ambient| == 0
             && PlacedEnd(code, end)
    ensures Simulates(code, env, c, Running(c.(pc := end + 1)))
  {
    SimulatesStep(code, env, c, Running(c.(pc := end + 1)));
  }

  lemma LastLight<S>(code: seq<Word>, env: Env<S>, bodyPC: nat, end: nat, i: nat, st: S)
    requires PlacedEnd(code, end) && NextLight(env.ambient, i) >= |env.ambient|
    ensures Simulates(code, env, Config(end, [FlgIlluminance], Active(bodyPC, i), st),
                      Running(Config(end + 1, [], Inactive, st)))
  {
    assert [FlgIlluminance][..0] == [];
    SimulatesStep(code, env, Config(end, [FlgIlluminance], Active(bodyPC, i), st),
                  Running(Config(end + 1, [], Inactive, st)));
  }

  lemma OneMoreLight<S>(code: seq<Word>, env: Env<S>, bodyPC: nat, end: nat, i: nat, st: S, o: Outcome<S>)
    requires PlacedEnd(code, end) && NextLight(env.ambient, i) < |env.ambient|
    requires var k := NextLight(env.ambient, i);
             Simulates(code, env, Config(bodyPC, [FlgIlluminance], Active(bodyPC, k + 1), env.light(k, st)), o)
    ensures Simulates(code, env, Config(end, [FlgIlluminance], Active(bodyPC, i), st), o)
  {
    var k := NextLight(env.ambient, i);
    StepThen(code, env, Config(end, [FlgIlluminance], Active(bodyPC, i), st),
             Config(bodyPC, [FlgIlluminance], Active(bodyPC, k + 1), env.light(k, st)), o);
  }

  // ---------- blocks ----------

  /** A body run inside a block, then its funcopend. */
  lemma RunBodyToEnd<S>(code: seq<Word>, env: Env<S>, c: Config<S>, flag: Flag, r: Result<S>, bodyPC: nat, end: nat)
    requires PlacedEnd(code, end) && !flag.FlgIlluminance?
    requires Simulates(code, env, Inside(c, flag, bodyPC), Expected(r, Inside(c, flag, bodyPC), end))
    ensures Simulates(code, env, Inside(c, flag, bodyPC), Expected(r, c, end + 1))
  {
    if r.Normal? {
      EndsBlock(code, env, c.(st := r.st), flag, end);
      SimulatesThen(code, env, Inside(c, flag, bodyPC), Inside(c.(st := r.st), flag, end), Expected(r, c, end + 1));
    }
  }

  /**
   * Flat execution is structured execution: from the first word of a placed program, in any surrounding blocks
   * and for any shading data and instruction effects, the machine reaches the outcome of `Exec`. If that is
   * normal the machine stands just past the program with the same funcop stack and illuminance context.
   */
  lemma {:induction false} RunsAsStructured<S>(code: seq<Word>, env: Env<S>, p: Prog, c: Config<S>)
    requires Ready(c) && Placed(code, p, c.pc, |c.stack|)
    ensures Simulates(code, env, c, Expected(Exec(env, p, |c.stack|, c.st), c, c.pc + Size(p)))
    decreases p, 4
  {
    if p.Done? {
      assert Steps(code, env, Running(c), 0) == Running(c);
    } else {
      PlacedUnfold(code, p, c.pc, |c.stack|, c.pc + StmtSize(p));
      RunsStmt(code, env, p, c);
      var r := ExecStmt(env, p, |c.stack|, c.st);
      if r.Normal? {
        StopsNotNormal(env, p, |c.stack|, c.st);
        var d := c.(pc := c.pc + StmtSize(p), st := r.st);
        RunsAsStructured(code, env, p.next, d);
        SimulatesThen(code, env, c, d, Expected(Exec(env, p, |c.stack|, c.st), c, c.pc + Size(p)));
      }
    }
  }

  lemma StopsNotNormal<S>(env: Env<S>, p: Prog, depth: nat, st: S)
    requires !p.Done? && ExecStmt(env, p, depth, st).Normal?
    ensures !Stops(p, depth)
  {
  }

  /** A body inside one more block, its result by name. */
  lemma {:induction false} RunsInside<S>(code: seq<Word>, env: Env<S>, body: Prog, c: Config<S>, flag: Flag, pc: nat,
                                         end: nat, r: Result<S>)
    requires |c.stack| < MAX_N && Placed(code, body, pc, |c.stack| + 1) && end == pc + Size(body)
    requires r == Exec(env, body, |c.stack| + 1, c.st)
    ensures Simulates(code, env, Inside(c, flag, pc), Expected(r, Inside(c, flag, pc), end))
    decreases body, 5
  {
    RunsAsStructured(code, env, body, Inside(c, flag, pc));
  }

  lemma {:induction false} RunsStmt<S>(code: seq<Word>, env: Env<S>, p: Prog, c: Config<S>)
    requires Ready(c) && !p.Done? && PlacedStmt(code, p, c.pc, |c.stack|)
    ensures Simulates(code, env, c, Expected(ExecStmt(env, p, |c.stack|, c.st), c, c.pc + StmtSize(p)))
    decreases p, 3
  {
    match p
    case RetThen(_) =>
      SimulatesStep(code, env, c, Halted(c.st));
    case Op(id, opers, _) =>
      SimulatesStep(code, env, c, Running(c.(pc := c.pc + 1 + |opers|, st := env.exec(id, opers, c.st))));
    case If(_, _, _) => RunsIf(code, env, p, c);
    case IfElse(_, _, _, _) => RunsIfElse(code, env, p, c);
    case Illum(_, _, _, _) => RunsIllum(code, env, p, c);
    case SolarBlock(_, _, _, _) => RunsSolar(code, env, p, c);
  }

  // ---------- iftrue ----------

  /** What an `iftrue` comes to inside `depth` blocks, if its body comes to r. */
  function IfResult<S>(env: Env<S>, cond: Operand, depth: nat, st: S, r: Result<S>): Result<S> {
    if depth >= MAX_N then Error(st) else if cond.varying || env.mask(cond, st) then r else Normal(st)
  }

  /** Where a placed `iftrue` has its words, and what is known of its end address. */
  lemma IfPlaced(code: seq<Word>, p: Prog, pc: nat, depth: nat, end: nat)
    requires p.If? && PlacedStmt(code, p, pc, depth) && end == pc + 2 + Size(p.body)
    ensures Opens(code, pc, IfTrue, [p.cond], AsShort(end)) && PlacedEnd(code, end) && StmtSize(p) == 3 + Size(p.body)
    ensures depth < MAX_N ==> Placed(code, p.body, pc + 2, depth + 1) && (!p.cond.varying ==> AsShort(end) == end)
  {
    if depth < MAX_N {
      EndsOfIf(p, pc, depth, end, Below());
    }
  }

  lemma {:induction false} RunsIf<S>(code: seq<Word>, env: Env<S>, p: Prog, c: Config<S>)
    requires Ready(c) && p.If? && PlacedStmt(code, p, c.pc, |c.stack|)
    ensures Simulates(code, env, c, Expected(ExecStmt(env, p, |c.stack|, c.st), c, c.pc + StmtSize(p)))
    decreases p, 2
  {
    var end := c.pc + 2 + Size(p.body);
    var r := Exec(env, p.body, |c.stack| + 1, c.st);
    IfPlaced(code, p, c.pc, |c.stack|, end);
    if |c.stack| < MAX_N {
      RunsInside(code, env, p.body, c, IfFlag(p.cond), c.pc + 2, end, r);
    }
    IfComposes(code, env, p.cond, c, end, AsShort(end), r);
  }

  /** The instructions of an `iftrue` around a body that comes to r; the end address counts if uniform. */
  lemma IfComposes<S>(code: seq<Word>, env: Env<S>, cond: Operand, c: Config<S>, end: nat, address: nat, r: Result<S>)
    requires Opens(code, c.pc, IfTrue, [cond], address) && PlacedEnd(code, end)
    requires |c.stack| < MAX_N ==>
               Simulates(code, env, Inside(c, IfFlag(cond), c.pc + 2),
                         Expected(r, Inside(c, IfFlag(cond), c.pc + 2), end))
    requires |c.stack| < MAX_N && !cond.varying ==> address == end
    ensures Simulates(code, env, c, Expected(IfResult(env, cond, |c.stack|, c.st, r), c, end + 1))
  {
    if |c.stack| >= MAX_N {
      IfTooDeep(code, env, c, cond, address);
    } else if cond.varying || env.mask(cond, c.st) {
      RunBodyToEnd(code, env, c, IfFlag(cond), r, c.pc + 2, end);
      EntersIf(code, env, c, cond, address, Expected(r, c, end + 1));
    } else {
      EndsBlock(code, env, c, FlgIfTrue(false, false), end);
      SkipsIf(code, env, c, cond, end, Running(c.(pc := end + 1)));
    }
  }

  // ---------- iftrue and orelse ----------

  /** What follows a result: nothing, unless it is normal. */
  function AndThen<S>(r: Result<S>, next: Result<S>): Result<S> { if r.Normal? then next else r }

  /** What an `iftrue` with an orelse comes to inside `depth` blocks, if its bodies come to r and next. */
  function IfElseResult<S>(env: Env<S>, cond: Operand, depth: nat, st: S, r: Result<S>, next: Result<S>): Result<S> {
    if depth >= MAX_N then Error(st)
    else if cond.varying then AndThen(r, next)
    else if env.mask(cond, st) then r
    else next
  }

  /** The data with which the second body is entered. */
  function ElseData<S>(cond: Operand, st: S, r: Result<S>): S { if cond.varying then r.st else st }

  lemma ExecIfElse<S>(env: Env<S>, p: Prog, depth: nat, st: S, r: Result<S>, next: Result<S>)
    requires p.IfElse? && r == Exec(env, p.body, depth + 1, st)
    requires next == Exec(env, p.els, depth + 1, ElseData(p.cond, st, r))
    ensures ExecStmt(env, p, depth, st) == IfElseResult(env, p.cond, depth, st, r, next)
  {
  }

  lemma IfElsePlaced(code: seq<Word>, p: Prog, pc: nat, depth: nat, mid: nat, end: nat)
    requires p.IfElse? && PlacedStmt(code, p, pc, depth) && mid == pc + 2 + Size(p.body) && end == mid + 1 + Size(p.els)
    ensures TwoOpen(code, p.cond, pc, AsShort(mid), mid, AsShort(end), end) && pc + StmtSize(p) == end + 1
    ensures depth < MAX_N ==> Placed(code, p.body, pc + 2, depth + 1) && Placed(code, p.els, mid + 1, depth + 1)
    ensures depth < MAX_N && !p.cond.varying ==> AsShort(mid) == mid && AsShort(end) == end
  {
    IfElseLaid(code, p, pc, mid, end);
    if depth < MAX_N {
      EndsOfIfElse(p, pc, depth, mid, end, Below());
    }
  }

  lemma IfElseLaid(code: seq<Word>, p: Prog, pc: nat, mid: nat, end: nat)
    requires p.IfElse? && LaidStmt(code, p, pc) && mid == pc + 2 + Size(p.body) && end == mid + 1 + Size(p.els)
    ensures TwoOpen(code, p.cond, pc, AsShort(mid), mid, AsShort(end), end) && pc + StmtSize(p) == end + 1
    ensures Laid(code, p.body, pc + 2) && Laid(code, p.els, mid + 1)
  {
  }

  lemma {:induction false} RunsIfElse<S>(code: seq<Word>, env: Env<S>, p: Prog, c: Config<S>)
    requires Ready(c) && p.IfElse? && PlacedStmt(code, p, c.pc, |c.stack|)
    ensures Simulates(code, env, c, Expected(ExecStmt(env, p, |c.stack|, c.st), c, c.pc + StmtSize(p)))
    decreases p, 2
  {
    var mid := c.pc + 2 + Size(p.body);
    var end := mid + 1 + Size(p.els);
    var r := Exec(env, p.body, |c.stack| + 1, c.st);
    var d := c.(st := ElseData(p.cond, c.st, r));
    var next := Exec(env, p.els, |c.stack| + 1, d.st);
    ExecIfElse(env, p, |c.stack|, c.st, r, next);
    IfElsePlaced(code, p, c.pc, |c.stack|, mid, end);
    if |c.stack| < MAX_N {
      RunsInside(code, env, p.body, c, IfFlag(p.cond), c.pc + 2, mid, r);
      RunsInside(code, env, p.els, d, FlgOrElse, mid + 1, end, next);
    }
    IfElseComposes(code, env, p.cond, c, mid, end, AsShort(mid), AsShort(end), r, next);
  }

  /** The instructions around two bodies that come to r and next; the end addresses count if uniform. */
  lemma IfElseComposes<S>(code: seq<Word>, env: Env<S>, cond: Operand, c: Config<S>, mid: nat, end: nat, address: nat,
                          address': nat,
                          r: Result<S>, next: Result<S>)
    requires TwoOpen(code, cond, c.pc, address, mid, address', end)
    requires |c.stack| < MAX_N ==>
               && Simulates(code, env, Inside(c, IfFlag(cond), c.pc + 2),
                            Expected(r, Inside(c, IfFlag(cond), c.pc + 2), mid))
               && var d := Inside(c.(st := ElseData(cond, c.st, r)), FlgOrElse, mid + 1);
                 Simulates(code, env, d, Expected(next, d, end))
    requires |c.stack| < MAX_N && !cond.varying ==> address == mid && address' == end
    ensures Simulates(code, env, c, Expected(IfElseResult(env, cond, |c.stack|, c.st, r, next), c, end + 1))
  {
    if |c.stack| >= MAX_N {
      IfTooDeep(code, env, c, cond, address);
    } else if cond.varying {
      RunsOrElse(code, env, c.(st := r.st), true, mid, end, address', next);
      RunsVarying(code, env, cond, c, r, next, mid, end, address);
    } else if env.mask(cond, c.st) {
      RunsTrue(code, env, cond, c, r, mid, end);
    } else {
      RunsOrElse(code, env, c, false, mid, end, address', next);
      SkipsIf(code, env, c, cond, mid, Expected(next, c, end + 1));
    }
  }

  /** The body of an orelse, entered at its orelse word after an `iftrue` that was not uniformly true. */
  lemma RunsOrElse<S>(code: seq<Word>, env: Env<S>, c: Config<S>, vary: bool, pc: nat, end: nat, address: nat,
                      r: Result<S>)
    requires |c.stack| < MAX_N && Opens(code, pc, OrElse, [], address) && PlacedEnd(code, end)
    requires Simulates(code, env, Inside(c, FlgOrElse, pc + 1), Expected(r, Inside(c, FlgOrElse, pc + 1), end))
    ensures Simulates(code, env, Inside(c, FlgIfTrue(false, vary), pc), Expected(r, c, end + 1))
  {
    RunBodyToEnd(code, env, c, FlgOrElse, r, pc + 1, end);
    EntersOrElse(code, env, c, vary, pc, address, Expected(r, c, end + 1));
  }

  /** A uniformly true condition runs the first body and jumps over the second. */
  lemma RunsTrue<S>(code: seq<Word>, env: Env<S>, cond: Operand, c: Config<S>, r: Result<S>, mid: nat, end: nat)
    requires TwoOpen(code, cond, c.pc, mid, mid, end, end) && |c.stack| < MAX_N && !cond.varying && env.mask(cond, c.st)
    requires Simulates(code, env, Inside(c, IfFlag(cond), c.pc + 2),
                       Expected(r, Inside(c, IfFlag(cond), c.pc + 2), mid))
    ensures Simulates(code, env, c, Expected(r, c, end + 1))
  {
    if r.Normal? {
      SkipsOrElse(code, env, c.(st := r.st), mid, end);
      SimulatesThen(code, env, Inside(c, IfFlag(cond), c.pc + 2), Inside(c.(st := r.st), IfFlag(cond), mid),
                    Expected(r, c, end + 1));
    }
    EntersIf(code, env, c, cond, mid, Expected(r, c, end + 1));
  }

  /** A varying condition runs both bodies, one after the other; no end address is read. */
  lemma RunsVarying<S>(code: seq<Word>, env: Env<S>, cond: Operand, c: Config<S>, r: Result<S>, next: Result<S>,
                       mid: nat, end: nat, address: nat)
    requires Opens(code, c.pc, IfTrue, [cond], address) && |c.stack| < MAX_N && cond.varying
    requires Simulates(code, env, Inside(c, IfFlag(cond), c.pc + 2),
                       Expected(r, Inside(c, IfFlag(cond), c.pc + 2), mid))
    requires Simulates(code, env, Inside(c.(st := r.st), FlgIfTrue(false, true), mid),
                       Expected(next, c.(st := r.st), end + 1))
    ensures Simulates(code, env, c, Expected(AndThen(r, next), c, end + 1))
  {
    var out := Expected(AndThen(r, next), c, end + 1);
    if r.Normal? {
      SimulatesThen(code, env, Inside(c, IfFlag(cond), c.pc + 2), Inside(c.(st := r.st), IfFlag(cond), mid), out);
    }
    EntersIf(code, env, c, cond, address, out);
  }

  // ---------- lighting ----------

  lemma SolarPlaced(code: seq<Word>, p: Prog, pc: nat, depth: nat, bodyPC: nat, end: nat)
    requires p.SolarBlock? && PlacedStmt(code, p, pc, depth) && bodyPC == pc + 1 + |p.opers|
             && end == bodyPC + Size(p.body)
    ensures Opens(code, pc, Solar(p.axisAngle), p.opers, AsShort(end)) && PlacedEnd(code, end)
            && pc + StmtSize(p) == end + 1
    ensures depth == 0 ==> Placed(code, p.body, bodyPC, 1)
  {
    if depth == 0 {
      EndsOfSolar(p, pc, depth, bodyPC, Below());
    }
  }

  lemma {:induction false} RunsSolar<S>(code: seq<Word>, env: Env<S>, p: Prog, c: Config<S>)
    requires Ready(c) && p.SolarBlock? && PlacedStmt(code, p, c.pc, |c.stack|)
    ensures Simulates(code, env, c, Expected(ExecStmt(env, p, |c.stack|, c.st), c, c.pc + StmtSize(p)))
    decreases p, 2
  {
    var bodyPC, end := c.pc + 1 + |p.opers|, c.pc + 1 + |p.opers| + Size(p.body);
    SolarPlaced(code, p, c.pc, |c.stack|, bodyPC, end);
    if c.stack != [] {
      LightingInside(code, env, c, Solar(p.axisAngle), p.opers, AsShort(end));
    } else {
      var lit := c.(st := env.solar(p.axisAngle, p.opers, c.st));
      RunsInside(code, env, p.body, lit, FlgSolar, bodyPC, end, Exec(env, p.body, 1, lit.st));
      SolarComposes(code, env, p.axisAngle, p.opers, c, end, AsShort(end), Exec(env, p.body, 1, lit.st));
    }
  }

  /** The instructions of a solar block around its body; its end address is not read. */
  lemma SolarComposes<S>(code: seq<Word>, env: Env<S>, a: bool, opers: seq<Operand>, c: Config<S>, end: nat,
                         address: nat, r: Result<S>)
    requires c.stack == [] && Opens(code, c.pc, Solar(a), opers, address) && PlacedEnd(code, end)
    requires var d := Inside(c.(st := env.solar(a, opers, c.st)), FlgSolar, c.pc + 1 + |opers|);
             Simulates(code, env, d, Expected(r, d, end))
    ensures Simulates(code, env, c, Expected(r, c, end + 1))
  {
    var lit := c.(st := env.solar(a, opers, c.st));
    RunBodyToEnd(code, env, lit, FlgSolar, r, c.pc + 1 + |opers|, end);
    EntersSolar(code, env, c, a, opers, address, Expected(r, c, end + 1));
  }

  lemma IllumPlaced(code: seq<Word>, p: Prog, pc: nat, depth: nat, bodyPC: nat, end: nat)
    requires p.Illum? && PlacedStmt(code, p, pc, depth) && bodyPC == pc + 1 + |p.opers| && end == bodyPC + Size(p.body)
    ensures Opens(code, pc, Illuminance(p.axisAngle), p.opers, AsShort(end)) && PlacedEnd(code, end)
            && pc + StmtSize(p) == end + 1
    ensures depth == 0 ==> Placed(code, p.body, bodyPC, 1) && AsShort(end) == end
  {
    if depth == 0 {
      EndsOfIllum(p, pc, depth, bodyPC, end, Below());
    }
  }

  lemma {:induction false} RunsIllum<S>(code: seq<Word>, env: Env<S>, p: Prog, c: Config<S>)
    requires Ready(c) && p.Illum? && PlacedStmt(code, p, c.pc, |c.stack|)
    ensures Simulates(code, env, c, Expected(ExecStmt(env, p, |c.stack|, c.st), c, c.pc + StmtSize(p)))
    decreases p, 2
  {
    var bodyPC, end := c.pc + 1 + |p.opers|, c.pc + 1 + |p.opers| + Size(p.body);
    IllumPlaced(code, p, c.pc, |c.stack|, bodyPC, end);
    if c.stack != [] {
      LightingInside(code, env, c, Illuminance(p.axisAngle), p.opers, AsShort(end));
    } else {
      var out := ExecLights(env, p.body, 0, c.st);
      RunsLights(code, env, p.body, bodyPC, 0, c.st, end, out);
      IllumComposes(code, env, p.axisAngle, p.opers, c, end, out);
    }
  }

  lemma IllumComposes<S>(code: seq<Word>, env: Env<S>, a: bool, opers: seq<Operand>, c: Config<S>, end: nat,
                         out: Result<S>)
    requires c.stack == [] && c.illum.Inactive? && Opens(code, c.pc, Illuminance(a), opers, end) && PlacedEnd(code, end)
    requires |env.ambient| == 0 ==> out == Normal(c.st)
    requires Simulates(code, env, Config(end, [FlgIlluminance], Active(c.pc + 1 + |opers|, 0), c.st),
                       Expected(out, Config(c.pc + 1 + |opers|, [], Inactive, c.st), end + 1))
    ensures Simulates(code, env, c, Expected(out, c, end + 1))
  {
    if |env.ambient| == 0 {
      SkipsIllum(code, env, c, a, opers, end);
    } else {
      EntersIllum(code, env, c, a, opers, end, Expected(out, c, end + 1));
    }
  }

  /** The illuminance loop, from its funcopend with light `i` next. */
  lemma {:induction false} RunsLights<S>(code: seq<Word>, env: Env<S>, body: Prog, bodyPC: nat, i: nat, st: S, end: nat,
                                         out: Result<S>)
    requires Placed(code, body, bodyPC, 1) && PlacedEnd(code, end) && end == bodyPC + Size(body)
    requires out == ExecLights(env, body, i, st)
    ensures Simulates(code, env, Config(end, [FlgIlluminance], Active(bodyPC, i), st),
                      Expected(out, Config(bodyPC, [], Inactive, st), end + 1))
    decreases body, 6, |env.ambient| - i
  {
    var k := NextLight(env.ambient, i);
    ExecLightsFromNext(env, body, i, st);
    if k >= |env.ambient| {
      LastLight(code, env, bodyPC, end, i, st);
    } else {
      var d := Config(bodyPC, [FlgIlluminance], Active(bodyPC, k + 1), env.light(k, st));
      var r := Exec(env, body, 1, d.st);
      RunsAsStructured(code, env, body, d);
      if r.Normal? {
        RunsLights(code, env, body, bodyPC, k + 1, r.st, end, out);
      }
      LightComposes(code, env, bodyPC, end, i, k, st, r, out);
    }
  }

  /** One turn of the loop: the light, the body, and the rest of the loop if the body ends normally. */
  lemma LightComposes<S>(code: seq<Word>, env: Env<S>, bodyPC: nat, end: nat, i: nat, k: nat, st: S, r: Result<S>,
                         out: Result<S>)
    requires PlacedEnd(code, end) && k == NextLight(env.ambient, i) < |env.ambient|
    requires var d := Config(bodyPC, [FlgIlluminance], Active(bodyPC, k + 1), env.light(k, st));
             Simulates(code, env, d, Expected(r, d, end))
    requires r.Normal? ==> Simulates(code, env, Config(end, [FlgIlluminance], Active(bodyPC, k + 1), r.st),
                                     Expected(out, Config(bodyPC, [], Inactive, r.st), end + 1))
    requires !r.Normal? ==> out == r
    ensures Simulates(code, env, Config(end, [FlgIlluminance], Active(bodyPC, i), st),
                      Expected(out, Config(bodyPC, [], Inactive, st), end + 1))
  {
    var d := Config(bodyPC, [FlgIlluminance], Active(bodyPC, k + 1), env.light(k, st));
    var o := Expected(out, Config(bodyPC, [], Inactive, st), end + 1);
    if r.Normal? {
      SimulatesThen(code, env, d, Config(end, [FlgIlluminance], Active(bodyPC, k + 1), r.st), o);
    }
    OneMoreLight(code, env, bodyPC, end, i, st, o);
  }
}
