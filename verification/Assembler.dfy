/** The RRASM assembler: one pass over the code lines that back-patches the end address of every block. */
module Assembler {
  import opened Common
  import opened ShaderCode

  /** What the parser has built so far: the words, the open blocks and the labels. */
  datatype AsmState = AsmState(code: seq<Word>, begins: seq<nat>, labels: seq<(string, nat)>) {
    /** Every open block starts at an opcode word. */
    ghost predicate Valid() {
      forall i :: 0 <= i < |begins| ==> begins[i] < |code| && code[begins[i]].OpWord?
    }
  }

  const EMPTY: AsmState := AsmState([], [], [])

  /** Stores the current address as the end address of the innermost open block, and closes that block. */
  function CloseBlock(s: AsmState): (r: AsmState)
    requires s.Valid() && s.begins != []
    ensures r.Valid() && |r.code| == |s.code|
  {
    var last := |s.begins| - 1;
    var b := s.begins[last];
    s.(code := s.code[b := s.code[b].(endAddr := AsShort(|s.code|))], begins := s.begins[..last])
  }

  /** The block bookkeeping of one instruction, before its own words are added. */
  function TrackBlock(s: AsmState, op: OpCode): (r: Option<AsmState>)
    requires s.Valid()
    ensures r.Some? ==> |r.value.code| == |s.code|
    ensures r.None? <==> (op.OrElse? || op.FuncopEnd?) && s.begins == []
  {
    if IsFuncopBegin(op) then Some(s.(begins := s.begins + [|s.code|]))
    else if op.OrElse? then
      if s.begins == [] then None
      else
        var t := CloseBlock(s);
        Some(t.(begins := t.begins + [|s.code|]))
    else if op.FuncopEnd? then
      if s.begins == [] then None else Some(CloseBlock(s))
    else Some(s)
  }

  /** One code line. None is a parse error: a nameless label, an unmatched block, a missing operand. */
  function ParseLine(s: AsmState, line: Line): (r: Option<AsmState>)
    requires s.Valid()
    ensures r.Some? ==> r.value.Valid()
  {
    match line
    case Label(name) =>
      if name == "" then None else Some(s.(labels := s.labels + [(name, |s.code|)]))
    case Instr(op, opers) =>
      var t := TrackBlock(s, op);
      if t.None? || |opers| < OperCnt(op) then None
      else Some(t.value.(code := t.value.code + Words(op, opers[..OperCnt(op)], INVALID_ADDR)))
  }

  function ParseAll(s: AsmState, lines: seq<Line>): (r: Option<AsmState>)
    requires s.Valid()
    ensures r.Some? ==> r.value.Valid()
    decreases |lines|
  {
    if lines == [] then Some(s)
    else
      var t := ParseLine(s, lines[0]);
      if t.None? then None else ParseAll(t.value, lines[1..])
  }

  // ---------- which listings are accepted ----------

  /** Blocks opened less blocks closed. */
  function Depth(lines: seq<Line>): int {
    if lines == [] then 0
    else
      Depth(lines[1..]) + if lines[0].Label? then 0
                          else if IsFuncopBegin(lines[0].op) then 1 else if lines[0].op.FuncopEnd? then -1 else 0
  }

  /** The line has all it needs by itself: a name, or its operands. */
  predicate Complete(line: Line) {
    match line
    case Label(name) => name != ""
    case Instr(op, opers) => |opers| >= OperCnt(op)
  }

  predicate NeedsBlock(line: Line) { line.Instr? && (line.op.OrElse? || line.op.FuncopEnd?) }

  /** Line k is complete, and if it is an orelse or a funcopend, more blocks have been opened before it than closed. */
  predicate AcceptedAt(open: int, lines: seq<Line>, k: nat)
    requires k < |lines|
  {
    Complete(lines[k]) && (NeedsBlock(lines[k]) ==> open + Depth(lines[..k]) > 0)
  }

  lemma OpenAfter(s: AsmState, line: Line)
    requires s.Valid()
    ensures ParseLine(s, line).Some? <==> Complete(line) && (NeedsBlock(line) ==> s.begins != [])
    ensures ParseLine(s, line).Some? ==> |ParseLine(s, line).value.begins| == |s.begins| + Depth([line])
  {
    assert Depth([line][1..]) == 0;
  }

  lemma {:induction false} ParsedExactly(s: AsmState, lines: seq<Line>)
    requires s.Valid()
    ensures ParseAll(s, lines).Some? <==> forall k: nat :: k < |lines| ==> AcceptedAt(|s.begins|, lines, k)
    decreases |lines|
  {
    if lines != [] {
      OpenAfter(s, lines[0]);
      assert AcceptedAt(|s.begins|, lines, 0) <==> ParseLine(s, lines[0]).Some?;
      if ParseLine(s, lines[0]).Some? {
        var t := ParseLine(s, lines[0]).value;
        ParsedExactly(t, lines[1..]);
        forall k: nat | k < |lines| - 1
          ensures AcceptedAt(|t.begins|, lines[1..], k) <==> AcceptedAt(|s.begins|, lines, k + 1)
        {
          DepthAfterFirst(lines, k);
        }
        assert forall k: nat :: 0 < k < |lines| && AcceptedAt(|t.begins|, lines[1..], k - 1) ==>
                 AcceptedAt(|s.begins|, lines, k);
      }
    }
  }

  lemma DepthAfterFirst(lines: seq<Line>, k: nat)
    requires k < |lines| - 1
    ensures Depth(lines[..k + 1]) == Depth([lines[0]]) + Depth(lines[1..][..k])
  {
    assert lines[..k + 1][1..] == lines[1..][..k];
    assert [lines[0]][1..] == [];
  }

  /**
   * Exactly which listings are accepted: every label has a name, every instruction its operands, and at every orelse
   * and funcopend a block is open.
   */
  lemma AcceptedExactly(lines: seq<Line>)
    ensures ParseAll(EMPTY, lines).Some? <==>
              forall k: nat :: k < |lines| ==> Complete(lines[k]) && (NeedsBlock(lines[k]) ==> Depth(lines[..k]) > 0)
  {
    ParsedExactly(EMPTY, lines);
    forall k: nat | k < |lines|
      ensures AcceptedAt(0, lines, k) <==> Complete(lines[k]) && (NeedsBlock(lines[k]) ==> Depth(lines[..k]) > 0)
    {
    }
  }

  /** The parser object; its fields are grown and patched line by line. */
  class Parser {
    var code: seq<Word>
    var begins: seq<nat>
    var labels: seq<(string, nat)>

    ghost function State(): AsmState
      reads this
    {
      AsmState(code, begins, labels)
    }

    constructor ()
      ensures State() == EMPTY
    {
      code, begins, labels := [], [], [];
    }

    /** After a failed line the parse is abandoned, so the state is then left unspecified. */
    method ParseCodeLine(line: Line) returns (ok: bool)
      requires State().Valid()
      modifies this
      ensures ok <==> ParseLine(old(State()), line).Some?
      ensures ok ==> State() == ParseLine(old(State()), line).value
    {
      if line.Label? {
        if line.name == "" {
          return false;
        }
        labels := labels + [(line.name, |code|)];
        return true;
      }
      var op := line.op;
      var instrIdx := |code|;
      if IsFuncopBegin(op) {
        begins := begins + [instrIdx];
      } else if op.OrElse? {
        if |begins| == 0 {
          return false;
        }
        var setAddrInstrIdx := begins[|begins| - 1];
        begins := begins[..|begins| - 1];
        code := code[setAddrInstrIdx := code[setAddrInstrIdx].(endAddr := AsShort(instrIdx))];
        begins := begins + [instrIdx];
      } else if op.FuncopEnd? {
        if |begins| == 0 {
          return false;
        }
        var setAddrInstrIdx := begins[|begins| - 1];
        begins := begins[..|begins| - 1];
        code := code[setAddrInstrIdx := code[setAddrInstrIdx].(endAddr := AsShort(instrIdx))];
      }
      ghost var tracked := State();
      assert Some(tracked) == TrackBlock(old(State()), op);
      code := code + [OpWord(op, INVALID_ADDR)];
      for i := 0 to OperCnt(op)
        invariant i <= |line.opers|
        invariant begins == tracked.begins && labels == tracked.labels
        invariant code == tracked.code + [OpWord(op, INVALID_ADDR)] + OperWords(line.opers[..i])
      {
        if i >= |line.opers| {
          return false;
        }
        code := code + [OperWord(line.opers[i])];
        assert OperWords(line.opers[..i]) + [OperWord(line.opers[i])] == OperWords(line.opers[..i + 1]);
      }
      assert code == tracked.code + Words(op, line.opers[..OperCnt(op)], INVALID_ADDR);
      ok := true;
    }

    /** Parses lines until the end or the first error. */
    method DoParse(lines: seq<Line>) returns (ok: bool)
      requires State().Valid()
      modifies this
      ensures ok <==> ParseAll(old(State()), lines).Some?
      ensures ok ==> State() == ParseAll(old(State()), lines).value
    {
      for i := 0 to |lines|
        invariant State().Valid()
        invariant ParseAll(old(State()), lines) == ParseAll(State(), lines[i..])
      {
        assert lines[i..][0] == lines[i] && lines[i..][1..] == lines[i + 1..];
        var lineOk := ParseCodeLine(lines[i]);
        if !lineOk {
          return false;
        }
      }
      ok := true;
    }
  }

  /** With any lines after them, the lines take the parser from `s` to `t`. */
  ghost predicate Parses(s: AsmState, lines: seq<Line>, t: AsmState) {
    forall more: seq<Line> :: ParsesBefore(s, lines, t, more)
  }

  ghost predicate ParsesBefore(s: AsmState, lines: seq<Line>, t: AsmState, more: seq<Line>) {
    s.Valid() && t.Valid() && ParseAll(s, lines + more) == ParseAll(t, more)
  }

  lemma ParsesAll(s: AsmState, lines: seq<Line>, t: AsmState)
    requires Parses(s, lines, t)
    ensures s.Valid() && t.Valid() && ParseAll(s, lines) == Some(t)
  {
    assert ParsesBefore(s, lines, t, []);
    assert lines + [] == lines;
  }

  lemma ParsesNone(s: AsmState)
    requires s.Valid()
    ensures Parses(s, [], s)
  {
    forall more: seq<Line>
      ensures ParsesBefore(s, [], s, more)
    {
      assert [] + more == more;
    }
  }

  lemma ParsesAppend(s: AsmState, a: seq<Line>, t: AsmState, b: seq<Line>, u: AsmState)
    requires Parses(s, a, t) && Parses(t, b, u)
    ensures Parses(s, a + b, u)
  {
    var ab := a + b;
    forall more: seq<Line>
      ensures ParsesBefore(s, ab, u, more)
    {
      assert ParsesBefore(s, a, t, b + more) && ParsesBefore(t, b, u, more);
      assert a + (b + more) == ab + more;
    }
  }

  lemma ParsesOne(s: AsmState, line: Line, t: AsmState)
    requires s.Valid() && ParseLine(s, line) == Some(t)
    ensures Parses(s, [line], t)
  {
    var lines := [line];
    forall more: seq<Line>
      ensures ParsesBefore(s, lines, t, more)
    {
      assert (lines + more)[0] == line && (lines + more)[1..] == more;
    }
  }

  /** `s` with the words `ws` added. */
  function Extend(s: AsmState, ws: seq<Word>): AsmState {
    s.(code := s.code + ws)
  }

  lemma ExtendExtend(s: AsmState, a: seq<Word>, b: seq<Word>)
    ensures Extend(Extend(s, a), b) == Extend(s, a + b)
  {
    assert s.code + a + b == s.code + (a + b);
  }

  /** Two pieces of source that each only add words. */
  lemma ParsesExtend(s: AsmState, a: seq<Line>, wa: seq<Word>, b: seq<Line>, wb: seq<Word>)
    requires Parses(s, a, Extend(s, wa)) && Parses(Extend(s, wa), b, Extend(Extend(s, wa), wb))
    ensures Parses(s, a + b, Extend(s, wa + wb))
  {
    ParsesAppend(s, a, Extend(s, wa), b, Extend(Extend(s, wa), wb));
    ExtendExtend(s, wa, wb);
  }

  /** An instruction that opens and closes no block. */
  lemma ParsesPlain(s: AsmState, op: OpCode, opers: seq<Operand>)
    requires s.Valid() && (op.Ret? || op.Simple?) && |opers| == OperCnt(op)
    ensures Parses(s, [Instr(op, opers)], Extend(s, Words(op, opers, INVALID_ADDR)))
  {
    assert opers[..OperCnt(op)] == opers;
    ParsesOne(s, Instr(op, opers), Extend(s, Words(op, opers, INVALID_ADDR)));
  }

  // ---------- blocks around any body ----------

  /** `s` inside an open block whose opening words have just been added. */
  function Opened(s: AsmState, op: OpCode, opers: seq<Operand>): (r: AsmState)
    requires s.Valid()
    ensures r.Valid() && |r.code| == |s.code| + 1 + |opers|
  {
    AsmState(s.code + Words(op, opers, INVALID_ADDR), s.begins + [|s.code|], s.labels)
  }

  lemma ParsesOpening(s: AsmState, op: OpCode, opers: seq<Operand>)
    requires s.Valid() && IsFuncopBegin(op) && |opers| == OperCnt(op)
    ensures Parses(s, [Instr(op, opers)], Opened(s, op, opers))
  {
    assert opers[..OperCnt(op)] == opers;
    ParsesOne(s, Instr(op, opers), Opened(s, op, opers));
  }

  lemma ExtendValid(s: AsmState, ws: seq<Word>)
    requires s.Valid()
    ensures Extend(s, ws).Valid()
  {
  }

  /** Closing a block patches its opening word and nothing else. */
  lemma ClosePatches(s: AsmState, op: OpCode, opers: seq<Operand>, ws: seq<Word>, end: nat)
    requires s.Valid() && end == |s.code| + 1 + |opers| + |ws|
    ensures var t := Extend(Opened(s, op, opers), ws);
            t.Valid() && CloseBlock(t) == Extend(s, BlockWords(op, opers, end, ws))
  {
    var t := Extend(Opened(s, op, opers), ws);
    assert t.begins[..|t.begins| - 1] == s.begins;
    assert t.code[|s.code|] == OpWord(op, INVALID_ADDR);
    assert CloseBlock(t).code == s.code + BlockWords(op, opers, end, ws);
  }

  lemma LineFuncopEnd(t: AsmState, closed: AsmState)
    requires t.Valid() && t.begins != [] && closed == CloseBlock(t)
    ensures ParseLine(t, Instr(FuncopEnd, [])) == Some(Extend(closed, END_WORDS))
  {
    assert Words(FuncopEnd, [], INVALID_ADDR) == END_WORDS;
  }

  lemma LineOrElse(t: AsmState, closed: AsmState)
    requires t.Valid() && t.begins != [] && closed == CloseBlock(t)
    ensures ParseLine(t, Instr(OrElse, [])) == Some(Opened(closed, OrElse, []))
  {
  }

  /** The body of an open block and its funcopend, given what the body assembles to. */
  lemma ParsesToFuncopEnd(s: AsmState, op: OpCode, opers: seq<Operand>, lines: seq<Line>, ws: seq<Word>, end: nat)
    requires s.Valid() && end == |s.code| + 1 + |opers| + |ws|
    requires Parses(Opened(s, op, opers), lines, Extend(Opened(s, op, opers), ws))
    ensures Parses(Opened(s, op, opers), lines + [Instr(FuncopEnd, [])],
                   Extend(s, BlockWords(op, opers, end, ws) + END_WORDS))
  {
    var t := Extend(Opened(s, op, opers), ws);
    var closed := Extend(s, BlockWords(op, opers, end, ws));
    ClosePatches(s, op, opers, ws, end);
    LineFuncopEnd(t, closed);
    ParsesOne(t, Instr(FuncopEnd, []), Extend(closed, END_WORDS));
    ParsesAppend(Opened(s, op, opers), lines, t, [Instr(FuncopEnd, [])], Extend(closed, END_WORDS));
    ExtendExtend(s, BlockWords(op, opers, end, ws), END_WORDS);
  }

  /** The body of an open block and its orelse, given what the body assembles to. */
  lemma ParsesToOrElse(s: AsmState, op: OpCode, opers: seq<Operand>, lines: seq<Line>, ws: seq<Word>, end: nat,
                       closed: AsmState)
    requires s.Valid() && end == |s.code| + 1 + |opers| + |ws| && closed == Extend(s, BlockWords(op, opers, end, ws))
    requires Parses(Opened(s, op, opers), lines, Extend(Opened(s, op, opers), ws))
    ensures closed.Valid() && Parses(Opened(s, op, opers), lines + [Instr(OrElse, [])], Opened(closed, OrElse, []))
  {
    var t := Extend(Opened(s, op, opers), ws);
    ClosePatches(s, op, opers, ws, end);
    LineOrElse(t, closed);
    ParsesOne(t, Instr(OrElse, []), Opened(closed, OrElse, []));
    ParsesAppend(Opened(s, op, opers), lines, t, [Instr(OrElse, [])], Opened(closed, OrElse, []));
  }

  /** A whole one-body block. */
  lemma ParsesBlock(s: AsmState, op: OpCode, opers: seq<Operand>, lines: seq<Line>, ws: seq<Word>, end: nat)
    requires s.Valid() && IsFuncopBegin(op) && |opers| == OperCnt(op) && end == |s.code| + 1 + |opers| + |ws|
    requires Parses(Opened(s, op, opers), lines, Extend(Opened(s, op, opers), ws))
    ensures Parses(s, BlockLines(op, opers, lines), Extend(s, BlockWords(op, opers, end, ws) + END_WORDS))
  {
    ParsesOpening(s, op, opers);
    ParsesToFuncopEnd(s, op, opers, lines, ws, end);
    ParsesAppend(s, [Instr(op, opers)], Opened(s, op, opers), lines + [Instr(FuncopEnd, [])],
                 Extend(s, BlockWords(op, opers, end, ws) + END_WORDS));
  }

  /** An iftrue block up to and including its orelse. */
  lemma ParsesIfPart(s: AsmState, cond: Operand, lines: seq<Line>, ws: seq<Word>, mid: nat, closed: AsmState)
    requires s.Valid() && mid == |s.code| + 2 + |ws| && closed == Extend(s, BlockWords(IfTrue, [cond], mid, ws))
    requires Parses(Opened(s, IfTrue, [cond]), lines, Extend(Opened(s, IfTrue, [cond]), ws))
    ensures closed.Valid() && Parses(s, [Instr(IfTrue, [cond])] + (lines + [Instr(OrElse, [])]),
                                     Opened(closed, OrElse, []))
  {
    var opers := [cond];
    ParsesOpening(s, IfTrue, opers);
    ParsesToOrElse(s, IfTrue, opers, lines, ws, mid, closed);
    ParsesAppend(s, [Instr(IfTrue, opers)], Opened(s, IfTrue, opers), lines + [Instr(OrElse, [])],
                 Opened(closed, OrElse, []));
  }

  /** The rest of that block, the orelse body and the funcopend, makes it whole. */
  lemma ParsesElsePart(s: AsmState, cond: Operand, lines: seq<Line>, mid: nat, ws: seq<Word>, closed: AsmState,
                       lines': seq<Line>, ws': seq<Word>, end: nat)
    requires closed == Extend(s, BlockWords(IfTrue, [cond], mid, ws)) && closed.Valid()
             && end == |closed.code| + 1 + |ws'|
    requires Parses(s, [Instr(IfTrue, [cond])] + (lines + [Instr(OrElse, [])]), Opened(closed, OrElse, []))
    requires Parses(Opened(closed, OrElse, []), lines', Extend(Opened(closed, OrElse, []), ws'))
    ensures Parses(s, IfElseLines(cond, lines, lines'), Extend(s, TwoBlockWords(cond, mid, ws, end, ws')))
  {
    var rest := BlockWords(OrElse, [], end, ws') + END_WORDS;
    ParsesToFuncopEnd(closed, OrElse, [], lines', ws', end);
    ParsesAppend(s, [Instr(IfTrue, [cond])] + (lines + [Instr(OrElse, [])]), Opened(closed, OrElse, []),
                 lines' + [Instr(FuncopEnd, [])], Extend(closed, rest));
    ExtendExtend(s, BlockWords(IfTrue, [cond], mid, ws), rest);
  }

  // ---------- whole programs ----------

  /**
   * The one-pass assembler produces exactly the structured layout: for every well-formed program, whatever
   * was assembled before it, its lines parse without error, leave the enclosing open blocks as they were,
   * and add the words of `Flat` at the current address.
   */
  lemma {:induction false} AssemblesToFlat(s: AsmState, p: Prog, base: nat)
    requires s.Valid() && WellFormed(p) && base == |s.code|
    ensures Parses(s, Lines(p), Extend(s, Flat(p, base)))
    decreases p, 3
  {
    if p.Done? {
      assert s.code + [] == s.code;
      ParsesNone(s);
    } else {
      var ws := FlatStmt(p, base);
      AssemblesStmt(s, p, base);
      ExtendValid(s, ws);
      AssemblesToFlat(Extend(s, ws), p.next, base + StmtSize(p));
      ParsesExtend(s, StmtLines(p), ws, Lines(p.next), Flat(p.next, base + StmtSize(p)));
    }
  }

  lemma {:induction false} AssemblesStmt(s: AsmState, p: Prog, base: nat)
    requires s.Valid() && !p.Done? && StmtWellFormed(p) && base == |s.code|
    ensures Parses(s, StmtLines(p), Extend(s, FlatStmt(p, base)))
    decreases p, 2
  {
    match p
    case RetThen(_) => ParsesPlain(s, Ret, []);
    case Op(id, opers, _) => ParsesPlain(s, Simple(id, |opers|), opers);
    case If(_, _, _) => AssemblesIf(s, p, base);
    case IfElse(_, _, _, _) => AssemblesIfElse(s, p, base);
    case Illum(_, _, _, _) => AssemblesLighting(s, p, base);
    case SolarBlock(_, _, _, _) => AssemblesLighting(s, p, base);
  }

  lemma {:induction false} AssemblesIf(s: AsmState, p: Prog, base: nat)
    requires s.Valid() && p.If? && StmtWellFormed(p) && base == |s.code|
    ensures Parses(s, StmtLines(p), Extend(s, FlatStmt(p, base)))
    decreases p, 1
  {
    AssemblesBlock(s, p, IfTrue, [p.cond], p.body, base + 2);
  }

  lemma {:induction false} AssemblesLighting(s: AsmState, p: Prog, base: nat)
    requires s.Valid() && (p.Illum? || p.SolarBlock?) && StmtWellFormed(p) && base == |s.code|
    ensures Parses(s, StmtLines(p), Extend(s, FlatStmt(p, base)))
    decreases p, 1
  {
    var op := if p.Illum? then Illuminance(p.axisAngle) else Solar(p.axisAngle);
    AssemblesBlock(s, p, op, p.opers, p.body, base + 1 + |p.opers|);
  }

  /** A block with one body, which is a part of p. */
  lemma {:induction false} AssemblesBlock(s: AsmState, p: Prog, op: OpCode, opers: seq<Operand>, body: Prog, pc: nat)
    requires s.Valid() && IsFuncopBegin(op) && |opers| == OperCnt(op) && pc == |s.code| + 1 + |opers|
    requires body < p && WellFormed(body)
    ensures Parses(s, BlockLines(op, opers, Lines(body)),
                   Extend(s, BlockWords(op, opers, pc + Size(body), Flat(body, pc)) + END_WORDS))
    decreases p, 0
  {
    AssemblesToFlat(Opened(s, op, opers), body, pc);
    ParsesBlock(s, op, opers, Lines(body), Flat(body, pc), pc + Size(body));
  }

  lemma {:induction false} AssemblesIfElse(s: AsmState, p: Prog, base: nat)
    requires s.Valid() && p.IfElse? && StmtWellFormed(p) && base == |s.code|
    ensures Parses(s, StmtLines(p), Extend(s, FlatStmt(p, base)))
    decreases p, 1
  {
    var ws, mid := Flat(p.body, base + 2), base + 2 + Size(p.body);
    AssemblesToFlat(Opened(s, IfTrue, [p.cond]), p.body, base + 2);
    AssemblesElse(s, p, ElsePC(p.body, base), Lines(p.body), mid, ws);
  }

  /** The orelse of p, whatever its first body is made of. */
  lemma {:induction false} AssemblesElse(s: AsmState, p: Prog, pc: nat, lines: seq<Line>, mid: nat, ws: seq<Word>)
    requires s.Valid() && p.IfElse? && WellFormed(p.els) && mid == |s.code| + 2 + |ws| && pc == mid + 1
    requires Parses(Opened(s, IfTrue, [p.cond]), lines, Extend(Opened(s, IfTrue, [p.cond]), ws))
    ensures Parses(s, IfElseLines(p.cond, lines, Lines(p.els)),
                   Extend(s, TwoBlockWords(p.cond, mid, ws, pc + Size(p.els), Flat(p.els, pc))))
    decreases p, 0
  {
    var closed := Extend(s, BlockWords(IfTrue, [p.cond], mid, ws));
    ParsesIfPart(s, p.cond, lines, ws, mid, closed);
    AssemblesToFlat(Opened(closed, OrElse, []), p.els, pc);
    ParsesElsePart(s, p.cond, lines, mid, ws, closed, Lines(p.els), Flat(p.els, pc), pc + Size(p.els));
  }
}
