/** Running a shader: the context object with its fetch / execute loop, and whole assembled shaders. */
module ShaderRun {
  import opened Common
  import opened ShaderCode
  import opened ShaderMachine
  import opened Assembler

  /** How an instruction ends: go on, return from the run, or throw. */
  datatype Status = Go | Return | Throw

  function Report<S>(status: Status, c: Config<S>): Outcome<S> {
    match status
    case Go => Running(c)
    case Return => Halted(c.st)
    case Throw => Failed(c.st)
  }

  class Context<S> {
    const code: seq<Word>
    const env: Env<S>
    const fopStack: array<Flag>
    var pc: nat
    var stackN: nat
    var illum: IllumCtx
    var st: S

    ghost predicate Valid()
      reads this
    {
      fopStack.Length == MAX_N && stackN <= MAX_N
    }

    ghost function Cfg(): Config<S>
      requires Valid()
      reads this, fopStack
    {
      Config(pc, fopStack[..stackN], illum, st)
    }

    constructor (code: seq<Word>, env: Env<S>, st: S)
      ensures Valid() && this.code == code && this.env == env && this.st == st
      ensures fresh(fopStack)
    {
      this.code := code;
      this.env := env;
      this.st := st;
      fopStack := new Flag[MAX_N](i => FlgOrElse);
      pc, stackN, illum := 0, 0, Inactive;
    }

    method PushFlag(flag: Flag) returns (status: Status)
      requires Valid()
      modifies this`stackN, fopStack
      ensures Valid() && Report(status, Cfg()) == Push(old(Cfg()), flag)
    {
      if stackN >= MAX_N {
        return Throw;
      }
      fopStack[stackN] := flag;
      stackN := stackN + 1;
      status := Go;
    }

    method InstIfTrue() returns (status: Status)
      requires Valid() && HasInstr(code, pc) && code[pc].op.IfTrue?
      modifies this, fopStack
      ensures Valid() && Report(status, Cfg()) == StepIfTrue(code, env, old(Cfg()))
    {
      assert IsOper(code, pc + 1);
      var cond := code[pc + 1].operand;
      assert cond == Opers(code, pc)[0];
      if cond.varying {
        pc := NextPC(code, pc);
        status := PushFlag(FlgIfTrue(false, true));
      } else if env.mask(cond, st) {
        pc := NextPC(code, pc);
        status := PushFlag(FlgIfTrue(true, false));
      } else {
        pc := code[pc].endAddr;
        status := PushFlag(FlgIfTrue(false, false));
      }
    }

    method InstOrElse() returns (status: Status)
      requires Valid() && HasInstr(code, pc) && code[pc].op.OrElse?
      requires !StepOrElse(code, Cfg()).Undefined?
      modifies this, fopStack
      ensures Valid() && Report(status, Cfg()) == StepOrElse(code, old(Cfg()))
    {
      if stackN == 0 {
        return Throw;
      }
      var flag := fopStack[stackN - 1];
      stackN := stackN - 1;
      assert fopStack[..stackN] == old(fopStack[..stackN])[..stackN];
      if flag.FlgIfTrue? && !flag.vary && flag.wasTrue {
        pc := code[pc].endAddr;
        pc := NextPC(code, pc);
        status := Go;
      } else {
        pc := NextPC(code, pc);
        status := PushFlag(FlgOrElse);
      }
    }

    /** The search for the next light is the loop of the source; each light found restarts the body. */
    method FuncopEndIlluminance() returns (status: Status)
      requires Valid() && HasInstr(code, pc) && code[pc].op.FuncopEnd?
      requires stackN > 0 && fopStack[stackN - 1].FlgIlluminance?
      modifies this
      ensures Valid() && Report(status, Cfg()) == StepFuncopEnd(code, env, old(Cfg()))
    {
      if illum.Active? {
        var i := illum.lightIdx;
        while i < |env.ambient|
          invariant NextLight(env.ambient, i) == NextLight(env.ambient, old(illum.lightIdx))
          invariant Cfg() == old(Cfg())
        {
          if !env.ambient[i] {
            st := env.light(i, st);
            pc := illum.bodyStart;
            illum := illum.(lightIdx := i + 1);
            return Go;
          }
          i := i + 1;
        }
      }
      illum := Inactive;
      stackN := stackN - 1;
      assert fopStack[..stackN] == old(fopStack[..stackN])[..stackN];
      pc := NextPC(code, pc);
      status := Go;
    }

    method InstFuncopEnd() returns (status: Status)
      requires Valid() && HasInstr(code, pc) && code[pc].op.FuncopEnd?
      modifies this
      ensures Valid() && Report(status, Cfg()) == StepFuncopEnd(code, env, old(Cfg()))
    {
      if stackN == 0 {
        return Throw;
      }
      if fopStack[stackN - 1].FlgIlluminance? {
        status := FuncopEndIlluminance();
      } else {
        stackN := stackN - 1;
        assert fopStack[..stackN] == old(fopStack[..stackN])[..stackN];
        pc := NextPC(code, pc);
        status := Go;
      }
    }

    method InstIlluminance() returns (status: Status)
      requires Valid() && HasInstr(code, pc) && code[pc].op.Illuminance?
      requires !StepIlluminance(code, env, Cfg()).Undefined?
      modifies this, fopStack
      ensures Valid() && Report(status, Cfg()) == StepIlluminance(code, env, old(Cfg()))
    {
      if stackN != 0 {
        return Throw;
      }
      var endAddr := code[pc].endAddr;
      if |env.ambient| == 0 {
        pc := NextPC(code, endAddr);
        return Go;
      }
      illum := Active(NextPC(code, pc), 0);
      pc := endAddr;
      status := PushFlag(FlgIlluminance);
    }

    method InstSolar() returns (status: Status)
      requires Valid() && HasInstr(code, pc) && code[pc].op.Solar?
      modifies this, fopStack
      ensures Valid() && Report(status, Cfg()) == StepSolar(code, env, old(Cfg()))
    {
      if stackN != 0 {
        return Throw;
      }
      st := env.solar(code[pc].op.solarAxisAngle, Opers(code, pc), st);
      pc := NextPC(code, pc);
      status := PushFlag(FlgSolar);
    }

    method ExecuteNext() returns (status: Status)
      requires Valid() && !Step(code, env, Cfg()).Undefined?
      modifies this, fopStack
      ensures Valid() && Report(status, Cfg()) == Step(code, env, old(Cfg()))
    {
      if pc >= |code| || code[pc].op.Ret? {
        return Return;
      }
      match code[pc].op
      case Simple(id, _) =>
        st := env.exec(id, Opers(code, pc), st);
        pc := NextPC(code, pc);
        status := Go;
      case IfTrue => status := InstIfTrue();
      case OrElse => status := InstOrElse();
      case FuncopEnd => status := InstFuncopEnd();
      case Illuminance(_) => status := InstIlluminance();
      case Solar(_) => status := InstSolar();
    }

    /**
     * The fetch / execute loop, for code that stops within `fuel` turns. An exception ends the run and is
     * swallowed, so the shading data is all that the caller sees.
     */
    method RunFrom(startPC: nat, ghost fuel: nat)
      requires Valid()
      requires var o := Steps(code, env, Running(Config(startPC, [], Inactive, st)), fuel); o.Halted? || o.Failed?
      modifies this, fopStack
      ensures Valid()
      ensures st == Steps(code, env, Running(Config(startPC, [], Inactive, old(st))), fuel).st
    {
      pc, stackN, illum := startPC, 0, Inactive;
      ghost var final := Steps(code, env, Running(Cfg()), fuel);
      ghost var left := fuel;
      while true
        invariant Valid()
        invariant Steps(code, env, Running(Cfg()), left) == final
        decreases left
      {
        OneTurn(code, env, Cfg(), left, final);
        var status := ExecuteNext();
        left := left - 1;
        if status != Go {
          return;
        }
      }
    }
  }

  /** One turn of a run that stops with `final`. */
  lemma OneTurn<S>(code: seq<Word>, env: Env<S>, c: Config<S>, left: nat, final: Outcome<S>)
    requires Steps(code, env, Running(c), left) == final && !final.Running?
    ensures left > 0 && Steps(code, env, Step(code, env, c), left - 1) == final
    ensures !Step(code, env, c).Running? ==> Step(code, env, c) == final
  {
    StepsUnfold(code, env, Running(c), left);
    StepsUnfold(code, env, Step(code, env, c), left - 1);
  }

  // ---------- whole shaders ----------

  /** A labelled entry point: the main code, or the code that sets a default parameter. */
  datatype Section = Section(name: string, body: Prog)

  function SectionLines(s: Section): seq<Line> {
    [Label(s.name)] + (Lines(s.body) + [Instr(Ret, [])])
  }

  function ShaderLines(secs: seq<Section>): seq<Line> {
    if secs == [] then [] else SectionLines(secs[0]) + ShaderLines(secs[1..])
  }

  function SectionWords(s: Section, base: nat): (ws: seq<Word>)
    ensures |ws| == Size(s.body) + 1
  {
    Flat(s.body, base) + Words(Ret, [], INVALID_ADDR)
  }

  /** The address of section `i` of a shader assembled from address `base`. */
  function Address(secs: seq<Section>, i: nat, base: nat): (a: nat)
    requires i <= |secs|
    ensures a >= base
  {
    if i == 0 then base else Address(secs[1..], i - 1, base + Size(secs[0].body) + 1)
  }

  ghost predicate Assemblable(secs: seq<Section>, base: nat) {
    secs == [] ||
    (&& secs[0].name != "" && WellFormed(secs[0].body)
     && AddressesFit(secs[0].body, base, 0)
     && Assemblable(secs[1..], base + Size(secs[0].body) + 1))
  }

  lemma SectionAssembles(s: AsmState, sec: Section, base: nat) returns (t: AsmState)
    requires s.Valid() && sec.name != "" && WellFormed(sec.body) && base == |s.code| && AddressesFit(sec.body, base, 0)
    ensures Parses(s, SectionLines(sec), t) && t.Valid() && SectionCode(t.code, sec, base)
    ensures s.code <= t.code && |t.code| == base + Size(sec.body) + 1
    ensures t.begins == s.begins && t.labels == s.labels + [(sec.name, base)]
  {
    var u, ret := s.(labels := s.labels + [(sec.name, base)]), Words(Ret, [], INVALID_ADDR);
    var ws := Flat(sec.body, base);
    t := Extend(u, ws + ret);
    ParsesOne(s, Label(sec.name), u);
    AssemblesToFlat(u, sec.body, base);
    ExtendValid(u, ws);
    ExtendValid(u, ws + ret);
    ParsesPlain(Extend(u, ws), Ret, []);
    ParsesExtend(u, Lines(sec.body), ws, [Instr(Ret, [])], ret);
    ParsesAppend(s, [Label(sec.name)], u, Lines(sec.body) + [Instr(Ret, [])], t);
    HasAppended(s.code, ws + ret);
  }

  lemma HasAppended(code: seq<Word>, ws: seq<Word>)
    ensures HasWords(code + ws, |code|, ws)
  {
    HasSlice(code + ws, |code|, ws);
  }

  lemma HasWordsLonger(code: seq<Word>, code': seq<Word>, pc: nat, ws: seq<Word>)
    requires HasWords(code, pc, ws) && code <= code'
    ensures HasWords(code', pc, ws)
  {
    forall i: nat
      ensures WordAt(code', pc, ws, i)
    {
      assert WordAt(code, pc, ws, i);
    }
  }

  /** Section i stands at its address, with its label and usable end addresses. */
  ghost predicate SectionAt(t: AsmState, n: nat, secs: seq<Section>, i: nat, base: nat)
    requires i < |secs|
  {
    var address := Address(secs, i, base);
    && n + i < |t.labels| && t.labels[n + i] == (secs[i].name, address)
    && SectionCode(t.code, secs[i], address)
  }

  ghost predicate SectionCode(code: seq<Word>, sec: Section, pc: nat) {
    WellFormed(sec.body) && AddressesFit(sec.body, pc, 0) && HasWords(code, pc, SectionWords(sec, pc))
  }

  lemma SectionShifts(t: AsmState, n: nat, secs: seq<Section>, i: nat, base: nat)
    requires 0 < i < |secs| && SectionAt(t, n + 1, secs[1..], i - 1, base + Size(secs[0].body) + 1)
    ensures SectionAt(t, n, secs, i, base)
  {
    assert secs[i] == secs[1..][i - 1];
  }

  /** The code and the label table of a whole shader: every label is at the first word of its section. */
  lemma {:induction false} ShaderAssembles(s: AsmState, secs: seq<Section>) returns (t: AsmState)
    requires s.Valid() && Assemblable(secs, |s.code|)
    ensures Parses(s, ShaderLines(secs), t)
    ensures s.code <= t.code && t.begins == s.begins
    ensures |t.labels| == |s.labels| + |secs| && s.labels <= t.labels
    ensures forall i :: 0 <= i < |secs| ==> SectionAt(t, |s.labels|, secs, i, |s.code|)
    decreases |secs|
  {
    if secs == [] {
      t := s;
      ParsesNone(s);
    } else {
      var base := |s.code|;
      var first := SectionAssembles(s, secs[0], base);
      t := ShaderAssembles(first, secs[1..]);
      ParsesAppend(s, SectionLines(secs[0]), first, ShaderLines(secs[1..]), t);
      HasWordsLonger(first.code, t.code, base, SectionWords(secs[0], base));
      assert t.labels[|s.labels|] == first.labels[|s.labels|];
      forall i | 0 <= i < |secs|
        ensures SectionAt(t, |s.labels|, secs, i, base)
      {
        if i > 0 {
          SectionShifts(t, |s.labels|, secs, i, base);
        }
      }
    }
  }

  /** How a run from a section's label ends: the final `ret` makes a normal end a return. */
  function SectionOutcome<S>(env: Env<S>, p: Prog, st: S): Outcome<S> {
    var r := Exec(env, p, 0, st);
    if r.Error? then Failed(r.st) else Halted(r.st)
  }

  /**
   * Assembling and running agree with the structured meaning, for every shader, every section, every
   * environment and every initial shading data; the run always stops and never leaves the code's instructions.
   */
  lemma AssembledShaderRuns<S>(secs: seq<Section>, i: nat, env: Env<S>, st: S)
    requires Assemblable(secs, 0) && i < |secs|
    ensures var r := ParseAll(EMPTY, ShaderLines(secs));
            && r.Some?
            && |r.value.labels| == |secs| && r.value.labels[i] == (secs[i].name, Address(secs, i, 0))
            && Simulates(r.value.code, env, Config(Address(secs, i, 0), [], Inactive, st),
                         SectionOutcome(env, secs[i].body, st))
  {
    var t := ShaderAssembles(EMPTY, secs);
    ParsesAll(EMPTY, ShaderLines(secs), t);
    assert SectionAt(t, 0, secs, i, 0);
    SectionRuns(t.code, env, secs[i], Config(Address(secs, i, 0), [], Inactive, st));
  }

  lemma SectionPlaced(code: seq<Word>, sec: Section, pc: nat)
    requires WellFormed(sec.body) && HasWords(code, pc, SectionWords(sec, pc))
    ensures Laid(code, sec.body, pc) && Opens(code, pc + Size(sec.body), Ret, [], INVALID_ADDR)
  {
    var ws := FlatOf(sec.body, pc);
    BodyPlaced(code, sec.body, pc, SectionWords(sec, pc), ws);
  }

  lemma BodyPlaced(code: seq<Word>, body: Prog, pc: nat, whole: seq<Word>, ws: seq<Word>)
    requires WellFormed(body) && HasWords(code, pc, whole)
    requires IsFlat(ws, body, pc) && Same(whole, ws + Words(Ret, [], INVALID_ADDR))
    ensures Laid(code, body, pc) && Opens(code, pc + Size(body), Ret, [], INVALID_ADDR)
  {
    SplitWords(code, pc, whole, ws, Words(Ret, [], INVALID_ADDR));
    FlatIsLaid(code, body, pc);
    PlacedInstr(code, pc + Size(body), Ret, [], INVALID_ADDR);
  }

  lemma SectionRuns<S>(code: seq<Word>, env: Env<S>, sec: Section, c: Config<S>)
    requires c.stack == [] && c.illum == Inactive && SectionCode(code, sec, c.pc)
    ensures Simulates(code, env, c, SectionOutcome(env, sec.body, c.st))
  {
    SectionPlaced(code, sec, c.pc);
    RunsAsStructured(code, env, sec.body, c);
    ThenReturns(code, env, c, Exec(env, sec.body, 0, c.st), c.pc + Size(sec.body));
  }

  lemma ThenReturns<S>(code: seq<Word>, env: Env<S>, c: Config<S>, r: Result<S>, pc: nat)
    requires Simulates(code, env, c, Expected(r, c, pc)) && Opens(code, pc, Ret, [], INVALID_ADDR)
    ensures Simulates(code, env, c, if r.Error? then Failed(r.st) else Halted(r.st))
  {
    if r.Normal? {
      var d := c.(pc := pc, st := r.st);
      SimulatesStep(code, env, d, Halted(r.st));
      SimulatesThen(code, env, c, d, Halted(r.st));
    }
  }

  /** What a shader does: the default-parameter sections chosen by the binding, then the main section. */
  function Meaning<S>(env: Env<S>, secs: seq<Section>, order: seq<nat>, st: S): S
    requires forall k :: 0 <= k < |order| ==> order[k] < |secs|
  {
    if order == [] then st
    else Meaning(env, secs, order[1..], Exec(env, secs[order[0]].body, 0, st).st)
  }

  /** `states` are the shading data before, between and after the sections, each started on what the last one left. */
  ghost predicate RanInTurn<S>(env: Env<S>, secs: seq<Section>, order: seq<nat>, states: seq<S>) {
    |states| == |order| + 1 && forall k :: 0 <= k < |order| ==> RanOne(env, secs, order[k], states[k], states[k + 1])
  }

  ghost predicate RanOne<S>(env: Env<S>, secs: seq<Section>, i: nat, before: S, after: S) {
    i < |secs| && after == Exec(env, secs[i].body, 0, before).st
  }

  /** There is one way for that to end, and `Meaning` is it. */
  lemma {:induction false} MeaningIsLast<S>(env: Env<S>, secs: seq<Section>, order: seq<nat>, states: seq<S>)
    requires RanInTurn(env, secs, order, states)
    ensures forall k :: 0 <= k < |order| ==> order[k] < |secs|
    ensures states[|order|] == Meaning(env, secs, order, states[0])
  {
    assert forall k :: 0 <= k < |order| ==> RanOne(env, secs, order[k], states[k], states[k + 1]);
    if order != [] {
      assert RanOne(env, secs, order[0], states[0], states[1]);
      forall k | 0 <= k < |order| - 1
        ensures RanOne(env, secs, order[1..][k], states[1..][k], states[1..][k + 1])
      {
        assert RanOne(env, secs, order[k + 1], states[k + 1], states[k + 2]);
      }
      MeaningIsLast(env, secs, order[1..], states[1..]);
    }
  }

  /**
   * A whole shader run: the sections in the given order, each from a cleared stack, errors swallowed. The data it goes
   * through are those of the structured programs, one after the other.
   */
  method Run<S>(ctx: Context<S>, secs: seq<Section>, order: seq<nat>) returns (ghost states: seq<S>)
    requires ctx.Valid() && Assemblable(secs, 0)
    requires ParseAll(EMPTY, ShaderLines(secs)).Some? && ctx.code == ParseAll(EMPTY, ShaderLines(secs)).value.code
    requires forall k :: 0 <= k < |order| ==> order[k] < |secs|
    modifies ctx, ctx.fopStack
    ensures RanInTurn(ctx.env, secs, order, states) && states[0] == old(ctx.st) && states[|order|] == ctx.st
    ensures ctx.st == Meaning(ctx.env, secs, order, old(ctx.st))
  {
    states := [ctx.st];
    for k := 0 to |order|
      invariant ctx.Valid() && |states| == k + 1 && states[0] == old(ctx.st) && states[k] == ctx.st
      invariant forall j :: 0 <= j < k ==> RanOne(ctx.env, secs, order[j], states[j], states[j + 1])
    {
      AssembledShaderRuns(secs, order[k], ctx.env, ctx.st);
      ghost var start := Config(Address(secs, order[k], 0), [], Inactive, ctx.st);
      ghost var fuel: nat :| Steps(ctx.code, ctx.env, Running(start), fuel)
        == SectionOutcome(ctx.env, secs[order[k]].body, ctx.st);
      ctx.RunFrom(Address(secs, order[k], 0), fuel);
      assert RanOne(ctx.env, secs, order[k], states[k], ctx.st);
      states := states + [ctx.st];
    }
    MeaningIsLast(ctx.env, secs, order, states);
  }

  // ---------- the 16-bit end address ----------

  /**
   * The condition on addresses is needed: a false `iftrue` at address 0 whose funcopend is at 65536 stores the
   * end address 0, jumps to itself until the funcop stack overflows, and fails; the structured program ends
   * normally.
   */
  lemma EndAddressWraps<S>(env: Env<S>, cond: Operand, body: Prog, st: S)
    requires !cond.varying && !env.mask(cond, st) && WellFormed(body) && Size(body) == 0xfffe
    ensures var code := Flat(If(cond, body, Done), 0);
            && Steps(code, env, Running(Config(0, [], Inactive, st)), 17) == Failed(st)
            && Exec(env, If(cond, body, Done), 0, st) == Normal(st)
  {
    var code := Flat(If(cond, body, Done), 0);
    WrappedWords(cond, body);
    PlacedInstr(code, 0, IfTrue, [cond], 0);
    WrapsFrom(code, env, cond, st, []);
  }

  lemma WrappedWords(cond: Operand, body: Prog)
    requires Size(body) == 0xfffe
    ensures HasWords(Flat(If(cond, body, Done), 0), 0, Words(IfTrue, [cond], 0))
  {
    var p, ws := If(cond, body, Done), Words(IfTrue, [cond], 0);
    assert AsShort(2 + Size(body)) == 0;
    var block := BlockWords(IfTrue, [cond], 2 + Size(body), Flat(body, 2));
    assert block == ws + Flat(body, 2);
    var stmt := FlatStmt(p, 0);
    assert stmt == block + END_WORDS;
    assert Flat(p, 0) == stmt + Flat(p.next, 0 + StmtSize(p));
    assert Flat(p, 0)[0..|ws|] == stmt[..|ws|] == block[..|ws|] == ws;
    HasSlice(Flat(p, 0), 0, ws);
  }

  lemma {:induction false} WrapsFrom<S>(code: seq<Word>, env: Env<S>, cond: Operand, st: S, stack: seq<Flag>)
    requires |stack| <= MAX_N && !cond.varying && !env.mask(cond, st)
    requires HasInstr(code, 0) && code[0] == OpWord(IfTrue, 0) && Opers(code, 0) == [cond]
    ensures Steps(code, env, Running(Config(0, stack, Inactive, st)), 17 - |stack|) == Failed(st)
    decreases 17 - |stack|
  {
    var o := Running(Config(0, stack, Inactive, st));
    StepsUnfold(code, env, o, 17 - |stack|);
    StepsUnfold(code, env, Step(code, env, o.c), 16 - |stack|);
    if |stack| < MAX_N {
      WrapsFrom(code, env, cond, st, stack + [FlgIfTrue(false, false)]);
    }
  }

  /** Such programs exist. */
  lemma {:induction false} BodyOfSize(n: nat) returns (body: Prog)
    ensures WellFormed(body) && Size(body) == 2 * n
  {
    if n == 0 {
      body := Done;
    } else {
      var rest := BodyOfSize(n - 1);
      body := Op(0, [Operand(0, true)], rest);
    }
  }
}
