/** The words of an assembled RRASM shader, and the block-structured source they come from. */
module ShaderCode {

  // End-of-block addresses are stored in a u_short; this value marks "not set".
  const INVALID_ADDR: nat := 0xffff

  /** The narrowing store of a code index into the 16-bit end-address field. */
  function AsShort(address: nat): nat {
    address % 0x1_0000
  }

  /** An operand word: an index in the symbol table and the class of the symbol. */
  datatype Operand = Operand(symbol: nat, varying: bool)

  /** The opcodes that move the program counter, and one constructor for all those that only fall through. */
  datatype OpCode =
    | Ret
    | Simple(id: nat, opersN: nat)
    | IfTrue
    | OrElse
    | FuncopEnd
    | Illuminance(illumAxisAngle: bool)
    | Solar(solarAxisAngle: bool)

  /** Operand counts of the opcode table. */
  function OperCnt(op: OpCode): nat {
    match op
    case Ret => 0
    case Simple(_, n) => n
    case IfTrue => 1
    case OrElse => 0
    case FuncopEnd => 0
    case Illuminance(axisAngle) => if axisAngle then 3 else 1
    case Solar(axisAngle) => if axisAngle then 2 else 0
  }

  predicate IsFuncopBegin(op: OpCode) {
    op.IfTrue? || op.Illuminance? || op.Solar?
  }

  datatype Word =
    | OpWord(op: OpCode, endAddr: nat)
    | OperWord(operand: Operand)

  function OperWords(opers: seq<Operand>): (ws: seq<Word>)
    ensures |ws| == |opers|
    ensures forall i :: 0 <= i < |opers| ==> ws[i] == OperWord(opers[i])
  {
    seq(|opers|, i requires 0 <= i < |opers| => OperWord(opers[i]))
  }

  /** A line of the .code section, its tokens already looked up in the opcode and symbol tables. */
  datatype Line =
    | Label(name: string)
    | Instr(op: OpCode, opers: seq<Operand>)

  /**
   * A block-structured program. Each constructor is one statement followed by the rest of its block:
   * an `iftrue` with or without an `orelse`, an `illuminance` loop, a `solar` block.
   */
  datatype Prog =
    | Done
    | RetThen(next: Prog)
    | Op(id: nat, opers: seq<Operand>, next: Prog)
    | If(cond: Operand, body: Prog, next: Prog)
    | IfElse(cond: Operand, body: Prog, els: Prog, next: Prog)
    | Illum(axisAngle: bool, opers: seq<Operand>, body: Prog, next: Prog)
    | SolarBlock(axisAngle: bool, opers: seq<Operand>, body: Prog, next: Prog)

  /** Each statement has the operands its opcode takes. */
  predicate WellFormed(p: Prog)
    decreases p, 1
  {
    p.Done? || (StmtWellFormed(p) && WellFormed(p.next))
  }

  predicate StmtWellFormed(p: Prog)
    requires !p.Done?
    decreases p, 0
  {
    match p
    case RetThen(_) => true
    case Op(_, _, _) => true
    case If(_, body, _) => WellFormed(body)
    case IfElse(_, body, els, _) => WellFormed(body) && WellFormed(els)
    case Illum(a, opers, body, _) => |opers| == OperCnt(Illuminance(a)) && WellFormed(body)
    case SolarBlock(a, opers, body, _) => |opers| == OperCnt(Solar(a)) && WellFormed(body)
  }

  /** The source lines of a program: those of its first statement, then the rest. */
  function Lines(p: Prog): seq<Line>
    decreases p, 1
  {
    if p.Done? then [] else StmtLines(p) + Lines(p.next)
  }

  function StmtLines(p: Prog): seq<Line>
    requires !p.Done?
    decreases p, 0
  {
    match p
    case RetThen(_) => [Instr(Ret, [])]
    case Op(id, opers, _) => [Instr(Simple(id, |opers|), opers)]
    case If(cond, body, _) => BlockLines(IfTrue, [cond], Lines(body))
    case IfElse(cond, body, els, _) =>
      IfElseLines(cond, Lines(body), Lines(els))
    case Illum(a, opers, body, _) => BlockLines(Illuminance(a), opers, Lines(body))
    case SolarBlock(a, opers, body, _) => BlockLines(Solar(a), opers, Lines(body))
  }

  function BlockLines(op: OpCode, opers: seq<Operand>, body: seq<Line>): seq<Line> {
    [Instr(op, opers)] + (body + [Instr(FuncopEnd, [])])
  }

  function IfElseLines(cond: Operand, body: seq<Line>, els: seq<Line>): seq<Line> {
    [Instr(IfTrue, [cond])] + (body + [Instr(OrElse, [])]) + (els + [Instr(FuncopEnd, [])])
  }

  /** The number of words a program assembles to. */
  function Size(p: Prog): nat
    decreases p, 1
  {
    if p.Done? then 0 else StmtSize(p) + Size(p.next)
  }

  function StmtSize(p: Prog): nat
    requires !p.Done?
    decreases p, 0
  {
    match p
    case RetThen(_) => 1
    case Op(_, opers, _) => 1 + |opers|
    case If(_, body, _) => 3 + Size(body)
    case IfElse(_, body, els, _) => 4 + Size(body) + Size(els)
    case Illum(_, opers, body, _) => 2 + |opers| + Size(body)
    case SolarBlock(_, opers, body, _) => 2 + |opers| + Size(body)
  }

  /** The words of one instruction. */
  function Words(op: OpCode, opers: seq<Operand>, endAddr: nat): (ws: seq<Word>)
    ensures |ws| == 1 + |opers|
  {
    [OpWord(op, endAddr)] + OperWords(opers)
  }

  const END_WORDS: seq<Word> := [OpWord(FuncopEnd, INVALID_ADDR)]

  /**
   * The words of a program placed at address `base`: every opening word carries the address
   * of the word that closes it (the `orelse` for an `iftrue` that has one).
   */
  function Flat(p: Prog, base: nat): (ws: seq<Word>)
    ensures |ws| == Size(p)
    decreases p, 2
  {
    if p.Done? then [] else FlatStmt(p, base) + Flat(p.next, base + StmtSize(p))
  }

  function FlatStmt(p: Prog, base: nat): (ws: seq<Word>)
    requires !p.Done?
    ensures |ws| == StmtSize(p)
    decreases p, 1
  {
    match p
    case RetThen(_) => Words(Ret, [], INVALID_ADDR)
    case Op(id, opers, _) => Words(Simple(id, |opers|), opers, INVALID_ADDR)
    case If(cond, body, _) => BlockWords(IfTrue, [cond], base + 2 + Size(body), Flat(body, base + 2)) + END_WORDS
    case IfElse(cond, body, els, _) =>
      TwoBlockWords(cond, base + 2 + Size(body), Flat(body, base + 2),
                    ElsePC(body, base) + Size(els), Flat(els, ElsePC(body, base)))
    case Illum(a, opers, body, _) =>
      BlockWords(Illuminance(a), opers, base + 1 + |opers| + Size(body), Flat(body, base + 1 + |opers|)) + END_WORDS
    case SolarBlock(a, opers, body, _) =>
      BlockWords(Solar(a), opers, base + 1 + |opers| + Size(body), Flat(body, base + 1 + |opers|)) + END_WORDS
  }

  /** The address of the second body of an `iftrue` at `base` with the given first one. */
  function ElsePC(body: Prog, base: nat): nat { base + 3 + Size(body) }

  /** An opening instruction with the 16 bits that are kept of its end address, then its body. */
  function BlockWords(op: OpCode, opers: seq<Operand>, end: nat, ws: seq<Word>): (r: seq<Word>)
    ensures |r| == 1 + |opers| + |ws|
  {
    Words(op, opers, AsShort(end)) + ws
  }

  /** An `iftrue` and its orelse, with their bodies, and the funcopend of both. */
  function TwoBlockWords(cond: Operand, mid: nat, ws: seq<Word>, end: nat, ws': seq<Word>): (r: seq<Word>)
    ensures |r| == 4 + |ws| + |ws'|
  {
    BlockWords(IfTrue, [cond], mid, ws) + (BlockWords(OrElse, [], end, ws') + END_WORDS)
  }

  // Depth of the funcop stack.
  const MAX_N: nat := 16

  // One past the largest end address that can be stored.
  const ADDRESSES: nat := 0x1_0000

  /** Inside `depth` blocks the statement never ends normally: it returns, or throws for being nested too deep. */
  predicate Stops(p: Prog, depth: nat)
    requires !p.Done?
  {
    match p
    case RetThen(_) => true
    case Op(_, _, _) => false
    case If(_, _, _) => depth >= MAX_N
    case IfElse(_, _, _, _) => depth >= MAX_N
    case Illum(_, _, _, _) => depth > 0
    case SolarBlock(_, _, _, _) => depth > 0
  }

  // ---------- the end addresses that are read ----------

  /** The word at `at` is read for the address of its block's end, which is `target`. */
  datatype End = End(at: nat, target: nat)

  /**
   * e is an end address that can be read when the program, placed at `base`, runs inside `depth` blocks: that of
   * a uniform condition, its orelse, or an illuminance loop. Those of varying conditions and of solar blocks are
   * not read, nor are any in code that is never come to.
   */
  predicate IsEnd(p: Prog, base: nat, depth: nat, e: End)
    decreases p, 1
  {
    !p.Done? && (StmtIsEnd(p, base, depth, e) || (!Stops(p, depth) && IsEnd(p.next, base + StmtSize(p), depth, e)))
  }

  predicate StmtIsEnd(p: Prog, base: nat, depth: nat, e: End)
    requires !p.Done?
    decreases p, 0
  {
    !Stops(p, depth) &&
    match p
    case RetThen(_) => false
    case Op(_, _, _) => false
    case If(cond, body, _) =>
      (!cond.varying && e == End(base, base + 2 + Size(body))) || IsEnd(body, base + 2, depth + 1, e)
    case IfElse(cond, body, els, _) =>
      var mid := base + 2 + Size(body);
      || (!cond.varying && (e == End(base, mid) || e == End(mid, mid + 1 + Size(els))))
      || IsEnd(body, base + 2, depth + 1, e) || IsEnd(els, mid + 1, depth + 1, e)
    case Illum(_, opers, body, _) =>
      e == End(base, base + 1 + |opers| + Size(body)) || IsEnd(body, base + 1 + |opers|, depth + 1, e)
    case SolarBlock(_, opers, body, _) => IsEnd(body, base + 1 + |opers|, depth + 1, e)
  }

  /** f holds of every end address that can be read. */
  ghost predicate EachEnd(p: Prog, base: nat, depth: nat, f: End -> bool) {
    forall e :: IsEnd(p, base, depth, e) ==> f(e)
  }

  ghost predicate EachStmtEnd(p: Prog, base: nat, depth: nat, f: End -> bool)
    requires !p.Done?
  {
    forall e :: StmtIsEnd(p, base, depth, e) ==> f(e)
  }

  ghost function Below(): End -> bool { (e: End) => e.target < ADDRESSES }

  /** Every end address that can be read fits the 16 bits it is stored in. */
  ghost predicate AddressesFit(p: Prog, base: nat, depth: nat) {
    EachEnd(p, base, depth, Below())
  }

  // ---------- the end addresses of each kind of statement ----------

  /** Of a program: those of its first statement and, if that can end normally, of the rest. */
  lemma EndsUnfold(p: Prog, base: nat, depth: nat, next: nat, f: End -> bool)
    requires !p.Done? && next == base + StmtSize(p)
    ensures EachEnd(p, base, depth, f) <==>
              EachStmtEnd(p, base, depth, f) && (Stops(p, depth) || EachEnd(p.next, next, depth, f))
  {
    forall e
      ensures IsEnd(p, base, depth, e) <==>
                StmtIsEnd(p, base, depth, e) || (!Stops(p, depth) && IsEnd(p.next, next, depth, e))
    {
    }
  }

  lemma EndsOfIf(p: Prog, base: nat, depth: nat, end: nat, f: End -> bool)
    requires p.If? && !Stops(p, depth) && end == base + 2 + Size(p.body)
    ensures EachStmtEnd(p, base, depth, f) <==>
              (p.cond.varying || f(End(base, end))) && EachEnd(p.body, base + 2, depth + 1, f)
  {
    forall e
      ensures StmtIsEnd(p, base, depth, e) <==>
                (!p.cond.varying && e == End(base, end)) || IsEnd(p.body, base + 2, depth + 1, e)
    {
    }
  }

  lemma EndsOfIfElse(p: Prog, base: nat, depth: nat, mid: nat, end: nat, f: End -> bool)
    requires p.IfElse? && !Stops(p, depth) && mid == base + 2 + Size(p.body) && end == mid + 1 + Size(p.els)
    ensures EachStmtEnd(p, base, depth, f) <==>
              && (p.cond.varying || (f(End(base, mid)) && f(End(mid, end))))
              && EachEnd(p.body, base + 2, depth + 1, f) && EachEnd(p.els, mid + 1, depth + 1, f)
  {
    forall e
      ensures StmtIsEnd(p, base, depth, e) <==>
                || (!p.cond.varying && (e == End(base, mid) || e == End(mid, end)))
                || IsEnd(p.body, base + 2, depth + 1, e) || IsEnd(p.els, mid + 1, depth + 1, e)
    {
    }
  }

  lemma EndsOfIllum(p: Prog, base: nat, depth: nat, body: nat, end: nat, f: End -> bool)
    requires p.Illum? && !Stops(p, depth) && body == base + 1 + |p.opers| && end == base + 1 + |p.opers| + Size(p.body)
    ensures EachStmtEnd(p, base, depth, f) <==> f(End(base, end)) && EachEnd(p.body, body, depth + 1, f)
  {
    forall e
      ensures StmtIsEnd(p, base, depth, e) <==> e == End(base, end) || IsEnd(p.body, body, depth + 1, e)
    {
    }
  }

  lemma EndsOfSolar(p: Prog, base: nat, depth: nat, body: nat, f: End -> bool)
    requires p.SolarBlock? && !Stops(p, depth) && body == base + 1 + |p.opers|
    ensures EachStmtEnd(p, base, depth, f) <==> EachEnd(p.body, body, depth + 1, f)
  {
    forall e
      ensures StmtIsEnd(p, base, depth, e) <==> IsEnd(p.body, body, depth + 1, e)
    {
    }
  }

  // ---------- short code ----------

  /** Code of at most 65536 words always fits. */
  lemma {:induction false} SmallCodeFits(p: Prog, base: nat, depth: nat)
    requires base + Size(p) <= ADDRESSES
    ensures AddressesFit(p, base, depth)
    decreases p, 1
  {
    if !p.Done? {
      SmallStmtFits(p, base, depth);
      SmallCodeFits(p.next, base + StmtSize(p), depth);
      EndsUnfold(p, base, depth, base + StmtSize(p), Below());
    }
  }

  lemma {:induction false} SmallStmtFits(p: Prog, base: nat, depth: nat)
    requires !p.Done? && base + StmtSize(p) <= ADDRESSES
    ensures EachStmtEnd(p, base, depth, Below())
    decreases p, 0
  {
    if !Stops(p, depth) {
      match p {
        case Op(_, _, _) =>
        case If(_, body, _) =>
          SmallCodeFits(body, base + 2, depth + 1);
          EndsOfIf(p, base, depth, base + 2 + Size(body), Below());
        case IfElse(_, body, els, _) =>
          var mid := base + 2 + Size(body);
          SmallCodeFits(body, base + 2, depth + 1);
          SmallCodeFits(els, mid + 1, depth + 1);
          EndsOfIfElse(p, base, depth, mid, mid + 1 + Size(els), Below());
        case Illum(_, opers, body, _) =>
          SmallCodeFits(body, base + 1 + |opers|, depth + 1);
          EndsOfIllum(p, base, depth, base + 1 + |opers|, base + 1 + |opers| + Size(body), Below());
        case SolarBlock(_, opers, body, _) =>
          SmallCodeFits(body, base + 1 + |opers|, depth + 1);
          EndsOfSolar(p, base, depth, base + 1 + |opers|, Below());
      }
    }
  }
}
