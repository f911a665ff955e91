/**
 * What label resolution means: running the resolved code does what running the source by label name
 * does, for every instruction set (compiler/assembler.py).
 */
module AssemblerRun {
  import opened Collections
  import opened Assembler

  /** Where control goes after an instruction. */
  datatype Control = Fall | Jump | Call | Return | Halt

  /** The effect of an operation with its operand on the machine's data: any function at all. */
  type Semantics<!S> = (S, string, Arg) -> (S, Control)

  datatype Config<S> = Running(at: nat, frames: seq<nat>, data: S) | Ended(data: S) | Stuck(data: S)

  /** The operand an instruction may look at; a jump uses it only as a destination. */
  function Operand(i: Instr): Arg { if IsJump(i.op) then NoArg else i.arg }

  function Move<S>(at: nat, frames: seq<nat>, effect: (S, Control), target: Option<nat>): Config<S> {
    match effect.1
    case Fall => Running(at + 1, frames, effect.0)
    case Jump => if target.Some? then Running(target.value, frames, effect.0) else Stuck(effect.0)
    case Call => if target.Some? then Running(target.value, frames + [at + 1], effect.0) else Stuck(effect.0)
    case Return =>
      if frames == [] then Ended(effect.0)
      else Running(frames[|frames| - 1], frames[..|frames| - 1], effect.0)
    case Halt => Ended(effect.0)
  }

  // ---------------------------------------------------------------- the two machines

  /** Resolved code: positions are instruction indices. */
  function CodeTarget(i: Instr): Option<nat> {
    if i.arg.Num? && i.arg.n >= 0 then Some(i.arg.n) else None
  }

  function CodeStep<S>(exec: Semantics<S>, code: seq<Instr>, c: Config<S>): Config<S> {
    if !c.Running? then c
    else if c.at >= |code| then Ended(c.data)
    else Move(c.at, c.frames, exec(c.data, code[c.at].op, Operand(code[c.at])), CodeTarget(code[c.at]))
  }

  /** The line of the last definition of a label. */
  function LabelLine(lines: seq<Line>, name: string): Option<nat> {
    if lines == [] then None
    else if lines[|lines| - 1] == Label(name) then Some(|lines| - 1)
    else LabelLine(lines[..|lines| - 1], name)
  }

  /** The line of instruction `n`, or the end of the text when there are not so many. */
  function LineOf(lines: seq<Line>, n: nat): nat {
    if |Instructions(lines)| <= n then |lines|
    else LineOf(lines[..|lines| - 1], n)
  }

  /** Source text: positions are lines, and a jump names a label or an instruction number. */
  function SourceTarget(lines: seq<Line>, i: Instr): Option<nat> {
    if IsJump(i.op) && i.arg.Name? then LabelLine(lines, i.arg.s)
    else if i.arg.Num? && i.arg.n >= 0 then Some(LineOf(lines, i.arg.n))
    else None
  }

  function SourceStep<S>(exec: Semantics<S>, lines: seq<Line>, c: Config<S>): Config<S> {
    if !c.Running? then c
    else if c.at >= |lines| then Ended(c.data)
    else
      match lines[c.at]
      case Code(i) => Move(c.at, c.frames, exec(c.data, i.op, Operand(i)), SourceTarget(lines, i))
      case _ => c.(at := c.at + 1)
  }

  function CodeRun<S>(exec: Semantics<S>, code: seq<Instr>, data: S, n: nat): Config<S> {
    if n == 0 then Running(0, [], data) else CodeStep(exec, code, CodeRun(exec, code, data, n - 1))
  }

  function SourceRun<S>(exec: Semantics<S>, lines: seq<Line>, data: S, n: nat): Config<S> {
    if n == 0 then Running(0, [], data) else SourceStep(exec, lines, SourceRun(exec, lines, data, n - 1))
  }

  // ---------------------------------------------------------------- positions correspond

  /** Line `p` stands for instruction index `pc`; every index past the end stands for the end. */
  ghost predicate Same(lines: seq<Line>, p: nat, pc: nat) {
    && p <= |lines|
    && |Instructions(lines[..p])| == if pc <= |Instructions(lines)| then pc else |Instructions(lines)|
  }

  ghost predicate Match<S>(lines: seq<Line>, c: Config<S>, d: Config<S>) {
    if c.Running? && d.Running? then
      && c.data == d.data && Same(lines, c.at, d.at)
      && |c.frames| == |d.frames| && forall k | 0 <= k < |c.frames| :: Same(lines, c.frames[k], d.frames[k])
    else c == d && !c.Running?
  }

  lemma {:induction false} LineOfIsSame(lines: seq<Line>, n: nat)
    ensures Same(lines, LineOf(lines, n), n)
  {
    assert lines[..|lines|] == lines;
    if n < |Instructions(lines)| {
      var init := lines[..|lines| - 1];
      LineOfIsSame(init, n);
      assert init[..LineOf(init, n)] == lines[..LineOf(init, n)];
    }
  }

  /** A label resolves to the line of its last definition, inside the code or just past its end. */
  lemma {:induction false} LabelIsItsLine(lines: seq<Line>, name: string)
    ensures name in Labels(lines) <==> LabelLine(lines, name).Some?
    ensures name in Labels(lines) ==> Labels(lines)[name] <= |Instructions(lines)|
    ensures name in Labels(lines) ==> Same(lines, LabelLine(lines, name).value, Labels(lines)[name])
  {
    if lines != [] {
      var init := lines[..|lines| - 1];
      LabelIsItsLine(init, name);
      if LabelLine(init, name).Some? {
        assert init[..LabelLine(init, name).value] == lines[..LabelLine(init, name).value];
      }
    }
  }

  lemma {:induction false} InstructionsPrefix(lines: seq<Line>, p: nat)
    requires p <= |lines|
    ensures Instructions(lines[..p]) <= Instructions(lines)
    decreases |lines|
  {
    if p == |lines| {
      assert lines[..p] == lines;
    } else {
      var init := lines[..|lines| - 1];
      assert init[..p] == lines[..p];
      InstructionsPrefix(init, p);
    }
  }

  /** One line further: the index advances exactly over an instruction. */
  lemma NextLine(lines: seq<Line>, p: nat)
    requires p < |lines|
    ensures Instructions(lines[..p + 1]) == Instructions(lines[..p]) + (if lines[p].Code? then [lines[p].instr] else [])
    ensures Instructions(lines[..p + 1]) <= Instructions(lines)
  {
    assert lines[..p + 1][..p] == lines[..p];
    InstructionsPrefix(lines, p + 1);
  }

  lemma ResolvedLength(code: seq<Instr>, labels: map<string, nat>, out: seq<Instr>)
    requires Resolve(code, labels) == Ok(out)
    ensures |out| == |code|
  {
    if code != [] { ResolvedAt(code, labels, out, 0); }
  }

  /** Every jump target the assembler resolved is at most the code length. */
  lemma TargetsInsideCode(lines: seq<Line>, out: seq<Instr>, k: nat)
    requires AssembleLines(lines) == Ok(out) && k < |Instructions(lines)|
    requires IsJump(Instructions(lines)[k].op) && Instructions(lines)[k].arg.Name?
    ensures |out| == |Instructions(lines)|
    ensures out[k].arg.Num? && 0 <= out[k].arg.n <= |out|
    ensures LabelLine(lines, Instructions(lines)[k].arg.s).Some?
    ensures Same(lines, LabelLine(lines, Instructions(lines)[k].arg.s).value, out[k].arg.n)
  {
    ResolvedLength(Instructions(lines), Labels(lines), out);
    ResolvedAt(Instructions(lines), Labels(lines), out, k);
    LabelIsItsLine(lines, Instructions(lines)[k].arg.s);
  }

  // ---------------------------------------------------------------- simulation

  lemma MoveMatches<S>(lines: seq<Line>, p: nat, rs: seq<nat>, pc: nat, qs: seq<nat>, effect: (S, Control),
                       t: Option<nat>, u: Option<nat>)
    requires Same(lines, p + 1, pc + 1) && |rs| == |qs| && forall k | 0 <= k < |rs| :: Same(lines, rs[k], qs[k])
    requires t.Some? <==> u.Some?
    requires t.Some? ==> Same(lines, t.value, u.value)
    ensures Match(lines, Move(p, rs, effect, t), Move(pc, qs, effect, u))
  {
  }

  /** The destinations of an instruction and of its resolved form correspond. */
  lemma TargetsMatch(lines: seq<Line>, i: Instr, j: Instr)
    requires ResolveOne(i, Labels(lines)) == Ok(j)
    ensures SourceTarget(lines, i).Some? <==> CodeTarget(j).Some?
    ensures CodeTarget(j).Some? ==> Same(lines, SourceTarget(lines, i).value, CodeTarget(j).value)
  {
    if IsJump(i.op) && i.arg.Name? {
      LabelIsItsLine(lines, i.arg.s);
    } else if i.arg.Num? && i.arg.n >= 0 {
      LineOfIsSame(lines, i.arg.n);
    }
  }

  /** A source step is an instruction step of the resolved code, or no step when the line is no instruction. */
  lemma StepMatches<S>(exec: Semantics<S>, lines: seq<Line>, out: seq<Instr>, c: Config<S>, d: Config<S>)
    requires AssembleLines(lines) == Ok(out) && Match(lines, c, d)
    ensures Match(lines, SourceStep(exec, lines, c),
                  if c.Running? && c.at < |lines| && !lines[c.at].Code? then d else CodeStep(exec, out, d))
  {
    ResolvedLength(Instructions(lines), Labels(lines), out);
    assert lines[..|lines|] == lines;
    if c.Running? && c.at < |lines| {
      NextLine(lines, c.at);
      if lines[c.at].Code? {
        var i := lines[c.at].instr;
        assert Instructions(lines)[d.at] == i;
        ResolvedAt(Instructions(lines), Labels(lines), out, d.at);
        TargetsMatch(lines, i, out[d.at]);
        var effect := exec(c.data, i.op, Operand(i));
        assert Operand(i) == Operand(out[d.at]);
        MoveMatches(lines, c.at, c.frames, d.at, d.frames, effect, SourceTarget(lines, i), CodeTarget(out[d.at]));
      }
    }
  }

  /** Every state the source reaches by label name, the resolved code reaches, in no more steps. */
  lemma {:induction false} CodeFollowsSource<S>(exec: Semantics<S>, lines: seq<Line>, out: seq<Instr>, data: S, m: nat)
    returns (n: nat)
    requires AssembleLines(lines) == Ok(out)
    ensures n <= m && Match(lines, SourceRun(exec, lines, data, m), CodeRun(exec, out, data, n))
  {
    if m == 0 {
      n := 0;
      assert lines[..0] == [];
    } else {
      n := CodeFollowsSource(exec, lines, out, data, m - 1);
      var c := SourceRun(exec, lines, data, m - 1);
      StepMatches(exec, lines, out, c, CodeRun(exec, out, data, n));
      if !(c.Running? && c.at < |lines| && !lines[c.at].Code?) { n := n + 1; }
    }
  }

  /** Labels and blank lines between here and the next instruction are passed without effect. */
  lemma SkipLines<S>(exec: Semantics<S>, lines: seq<Line>, out: seq<Instr>, data: S, m: nat, d: Config<S>)
    returns (m': nat)
    requires AssembleLines(lines) == Ok(out) && Match(lines, SourceRun(exec, lines, data, m), d)
    ensures m <= m' && Match(lines, SourceRun(exec, lines, data, m'), d)
    ensures var c := SourceRun(exec, lines, data, m'); !(c.Running? && c.at < |lines| && !lines[c.at].Code?)
    decreases var c := SourceRun(exec, lines, data, m); if c.Running? && c.at < |lines| then |lines| - c.at else 0
  {
    m' := m;
    var c := SourceRun(exec, lines, data, m);
    if c.Running? && c.at < |lines| && !lines[c.at].Code? {
      StepMatches(exec, lines, out, c, d);
      m' := SkipLines(exec, lines, out, data, m + 1, d);
    }
  }

  /** Every state the resolved code reaches, the source reaches by label name. */
  lemma {:induction false} SourceFollowsCode<S>(exec: Semantics<S>, lines: seq<Line>, out: seq<Instr>, data: S, n: nat)
    returns (m: nat)
    requires AssembleLines(lines) == Ok(out)
    ensures n <= m && Match(lines, SourceRun(exec, lines, data, m), CodeRun(exec, out, data, n))
  {
    if n == 0 {
      m := 0;
      assert lines[..0] == [];
    } else {
      m := SourceFollowsCode(exec, lines, out, data, n - 1);
      var d := CodeRun(exec, out, data, n - 1);
      m := SkipLines(exec, lines, out, data, m, d);
      StepMatches(exec, lines, out, SourceRun(exec, lines, data, m), d);
      m := m + 1;
    }
  }

  ghost predicate CodeEnds<S(!new)>(exec: Semantics<S>, code: seq<Instr>, data: S, result: Config<S>) {
    exists n: nat :: CodeRun(exec, code, data, n) == result
  }

  ghost predicate SourceEnds<S(!new)>(exec: Semantics<S>, lines: seq<Line>, data: S, result: Config<S>) {
    exists m: nat :: SourceRun(exec, lines, data, m) == result
  }

  /**
   * Assembly preserves meaning: for every instruction set, source text and start data, the resolved
   * code ends with a result exactly when the source, jumping by label name, ends with it.
   */
  lemma AssemblyPreservesMeaning<S(!new)>(exec: Semantics<S>, source: string, out: seq<Instr>, data: S, result: Config<S>)
    requires AssembleLines(Parsed(source)) == Ok(out) && !result.Running?
    ensures CodeEnds(exec, out, data, result) <==> SourceEnds(exec, Parsed(source), data, result)
  {
    var lines := Parsed(source);
    if CodeEnds(exec, out, data, result) {
      var n: nat :| CodeRun(exec, out, data, n) == result;
      var m := SourceFollowsCode(exec, lines, out, data, n);
      assert SourceRun(exec, lines, data, m) == result;
    }
    if SourceEnds(exec, lines, data, result) {
      var m: nat :| SourceRun(exec, lines, data, m) == result;
      var n := CodeFollowsSource(exec, lines, out, data, m);
      assert CodeRun(exec, out, data, n) == result;
    }
  }
}
