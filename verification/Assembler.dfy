/** Two-pass assembly with labels, and the printer it undoes (compiler/assembler.py). */
module Assembler {
  import opened Collections
  import opened Text

  datatype Arg = NoArg | Num(n: int) | Name(s: string)
  datatype Instr = Instr(op: string, arg: Arg)
  datatype Error = UndefinedLabel(name: string) | BadHex(text: string)
  datatype Result<+T> = Ok(value: T) | Err(error: Error)

  /** One cleaned source line. */
  datatype Line = Blank | Label(name: string) | Code(instr: Instr) | Bad(text: string)

  predicate IsJump(op: string) { op == "JUMP" || op == "JUMPI" || op == "CALL" }

  /** `_clean`: drop the comment, then surrounding white space. */
  function Clean(line: string): string { Strip(Before(line, ';')) }

  function ParseArg(parts: seq<string>): Result<Arg> {
    if parts == [] then Ok(NoArg)
    else
      var text := Join(parts, ' ');
      if AllDigits(text) then Ok(Num(ParseDecimal(text)))
      else if "0x" <= text then if AllHex(text[2..]) then Ok(Num(ParseHex(text[2..]))) else Err(BadHex(text))
      else Ok(Name(text))
  }

  function ParseLine(raw: string): Line {
    var line := Clean(raw);
    if line == [] then Blank
    else if line[|line| - 1] == ':' then Label(line[..|line| - 1])
    else
      var parts := Words(line);
      if parts == [] then Blank
      else
        match ParseArg(parts[1..])
        case Err(_) => Bad(line)
        case Ok(arg) => Code(Instr(Upper(parts[0]), arg))
  }

  // ---------------------------------------------------------------- the two passes as functions

  /** Instructions among the lines: the value of `pc` after them. */
  function Instructions(lines: seq<Line>): seq<Instr> {
    if lines == [] then []
    else
      var rest := Instructions(lines[..|lines| - 1]);
      match lines[|lines| - 1] case Code(i) => rest + [i] case _ => rest
  }

  /** Label table: a label names the next instruction; a repeated label keeps its last definition. */
  function Labels(lines: seq<Line>): map<string, nat> {
    if lines == [] then map[]
    else
      var init := lines[..|lines| - 1];
      match lines[|lines| - 1] case Label(name) => Labels(init)[name := |Instructions(init)|] case _ => Labels(init)
  }

  function FirstBad(lines: seq<Line>): Option<string> {
    if lines == [] then None
    else
      match FirstBad(lines[..|lines| - 1])
      case Some(t) => Some(t)
      case None => match lines[|lines| - 1] case Bad(t) => Some(t) case _ => None
  }

  function ResolveOne(i: Instr, labels: map<string, nat>): Result<Instr> {
    if IsJump(i.op) && i.arg.Name? then
      if i.arg.s in labels then Ok(Instr(i.op, Num(labels[i.arg.s]))) else Err(UndefinedLabel(i.arg.s))
    else Ok(i)
  }

  function Resolve(code: seq<Instr>, labels: map<string, nat>): Result<seq<Instr>> {
    if code == [] then Ok([])
    else
      match Resolve(code[..|code| - 1], labels)
      case Err(e) => Err(e)
      case Ok(done) =>
        match ResolveOne(code[|code| - 1], labels)
        case Err(e) => Err(e)
        case Ok(i) => Ok(done + [i])
  }

  function Parsed(source: string): seq<Line> {
    var raw := Split(Strip(source), '\n');
    seq(|raw|, k requires 0 <= k < |raw| => ParseLine(raw[k]))
  }

  function AssembleLines(lines: seq<Line>): Result<seq<Instr>> {
    match FirstBad(lines)
    case Some(t) => Err(BadHex(t))
    case None => Resolve(Instructions(lines), Labels(lines))
  }

  class Assembler {
    var labels: map<string, nat>
    var code: seq<Instr>

    constructor () { labels, code := map[], []; }

    /** `assemble`: collect labels and instructions in one loop, resolve references in a second. */
    method Assemble(source: string) returns (r: Result<seq<Instr>>)
      modifies this
      ensures r == AssembleLines(Parsed(source))
    {
      hide ParseLine, ResolveOne, Split, Strip, Instructions, Labels, FirstBad, Resolve;
      var raw := Split(Strip(source), '\n');
      ghost var lines := Parsed(source);
      labels, code := map[], [];
      var pc := 0;
      NothingRead(lines);
      for k := 0 to |raw|
        invariant labels == Labels(lines[..k]) && code == Instructions(lines[..k])
        invariant pc == |code| && FirstBad(lines[..k]).None?
      {
        ReadLine(lines, k);
        match ParseLine(raw[k]) {
          case Blank =>
          case Label(name) => labels := labels[name := pc];
          case Code(i) => code := code + [i]; pc := pc + 1;
          case Bad(text) =>
            BadSticks(lines, k + 1);
            return Err(BadHex(text));
        }
      }
      assert lines[..|raw|] == lines;
      var result: seq<Instr> := [];
      NothingResolved(code, labels);
      for k := 0 to |code|
        invariant code == Instructions(lines) && labels == Labels(lines)
        invariant Resolve(code[..k], labels) == Ok(result)
      {
        ResolveNext(code, labels, k);
        match ResolveOne(code[k], labels) {
          case Err(e) =>
            UndefinedSticks(code, labels, k + 1);
            return Err(e);
          case Ok(i) => result := result + [i];
        }
      }
      assert code[..|code|] == code;
      return Ok(result);
    }
  }

  lemma NothingRead(lines: seq<Line>)
    ensures Labels(lines[..0]) == map[] && Instructions(lines[..0]) == [] && FirstBad(lines[..0]) == None
  {
  }

  /** What one more line adds to the first pass. */
  lemma ReadLine(lines: seq<Line>, k: nat)
    requires k < |lines| && FirstBad(lines[..k]) == None
    ensures Instructions(lines[..k + 1]) == Instructions(lines[..k]) + if lines[k].Code? then [lines[k].instr] else []
    ensures Labels(lines[..k + 1])
         == if lines[k].Label? then Labels(lines[..k])[lines[k].name := |Instructions(lines[..k])|] else Labels(lines[..k])
    ensures FirstBad(lines[..k + 1]) == if lines[k].Bad? then Some(lines[k].text) else None
  {
    assert lines[..k + 1][..k] == lines[..k];
  }

  lemma NothingResolved(code: seq<Instr>, labels: map<string, nat>)
    ensures Resolve(code[..0], labels) == Ok([])
  {
  }

  /** What one more instruction adds to the second pass. */
  lemma ResolveNext(code: seq<Instr>, labels: map<string, nat>, k: nat)
    requires k < |code| && Resolve(code[..k], labels).Ok?
    ensures Resolve(code[..k + 1], labels)
         == match ResolveOne(code[k], labels)
            case Err(e) => Err(e)
            case Ok(i) => Ok(Resolve(code[..k], labels).value + [i])
  {
    assert code[..k + 1][..k] == code[..k];
  }

  lemma {:induction false} BadSticks(lines: seq<Line>, k: nat)
    requires k <= |lines| && FirstBad(lines[..k]).Some?
    ensures FirstBad(lines) == FirstBad(lines[..k])
    decreases |lines|
  {
    if k < |lines| {
      var init := lines[..|lines| - 1];
      assert init[..k] == lines[..k];
      BadSticks(init, k);
    } else {
      assert lines[..k] == lines;
    }
  }

  lemma {:induction false} UndefinedSticks(code: seq<Instr>, labels: map<string, nat>, k: nat)
    requires k <= |code| && Resolve(code[..k], labels).Err?
    ensures Resolve(code, labels) == Resolve(code[..k], labels)
    decreases |code|
  {
    if k < |code| {
      var init := code[..|code| - 1];
      assert init[..k] == code[..k];
      UndefinedSticks(init, labels, k);
    } else {
      assert code[..k] == code;
    }
  }

  // ---------------------------------------------------------------- the printer and its round trip

  function Core(i: Instr): string {
    match i.arg
    case NoArg => i.op
    case Num(n) => i.op + " " + (if n >= 0 then Decimal(n) else "-" + Decimal(-n))
    case Name(s) => i.op + " " + s
  }

  /** `disassemble`: one indented line per instruction. */
  function Disassembled(code: seq<Instr>): string {
    Join(seq(|code|, k requires 0 <= k < |code| => "    " + Core(code[k])), '\n')
  }

  method Disassemble(code: seq<Instr>) returns (text: string)
    ensures text == Disassembled(code)
  {
    var lines: seq<string> := [];
    for k := 0 to |code|
      invariant lines == seq(k, j requires 0 <= j < k => "    " + Core(code[j]))
    {
      lines := lines + ["    " + Core(code[k])];
    }
    text := Join(lines, '\n');
  }

  /** A token that survives printing and parsing: no white space, no comment sign, not the form of a label. */
  ghost predicate Plain(s: string) {
    s != [] && NoSpace(s) && ';' !in s && s[|s| - 1] != ':'
  }

  /** Instructions that print as one or two tokens: an upper-case operation, and any number or plain name. */
  ghost predicate Shaped(i: Instr) {
    Plain(i.op) && Upper(i.op) == i.op && (i.arg.Name? ==> Plain(i.arg.s))
  }

  /** Natural numbers, or names that do not look like numbers and are no jump target. */
  ghost predicate Printable(i: Instr) {
    && Shaped(i)
    && (i.arg.Num? ==> i.arg.n >= 0)
    && (i.arg.Name? ==> !AllDigits(i.arg.s) && !("0x" <= i.arg.s) && !IsJump(i.op))
  }

  lemma DecimalPlain(n: nat)
    ensures Plain(Decimal(n)) && Plain("-" + Decimal(n))
  {
    var (s, t) := (Decimal(n), "-" + Decimal(n));
    assert forall i | 0 <= i < |s| :: IsDigit(s[i]);
    assert forall i | 0 < i < |t| :: t[i] == s[i - 1];
  }

  lemma CoreTight(i: Instr)
    requires Shaped(i)
    ensures Tight(Core(i)) && ';' !in Core(i) && '\n' !in Core(i) && Core(i)[|Core(i)| - 1] != ':'
  {
    if i.arg.Num? { DecimalPlain(if i.arg.n >= 0 then i.arg.n else -i.arg.n); }
  }

  lemma {:induction false} BeforeNone(s: string, sep: char)
    requires sep !in s
    ensures Before(s, sep) == s
  {
    BeforeAppend(s, sep, []);
  }

  function ArgWords(i: Instr): seq<string> {
    match i.arg
    case NoArg => []
    case Num(n) => if n >= 0 then [Decimal(n)] else ["-" + Decimal(-n)]
    case Name(s) => [s]
  }

  lemma WordsOfCore(i: Instr)
    requires Shaped(i)
    ensures Words(Core(i)) == [i.op] + ArgWords(i)
  {
    match i.arg {
      case NoArg => WordsOfTwo(i.op, i.op);
      case Num(n) =>
        DecimalPlain(if n >= 0 then n else -n);
        WordsOfTwo(i.op, ArgWords(i)[0]);
      case Name(s) => WordsOfTwo(i.op, s);
    }
  }

  /** The printed argument parses back exactly when it is no negative number and no name that looks like one. */
  lemma ArgumentRoundTripsIff(i: Instr)
    requires Shaped(i) && !(i.arg.Name? && IsJump(i.op))
    ensures ParseArg(ArgWords(i)) == Ok(i.arg) <==> Printable(i)
  {
    if i.arg.Num? {
      if i.arg.n >= 0 {
        DecimalRoundTrip(i.arg.n);
      } else {
        var text := ArgWords(i)[0];
        assert text[0] == '-' && !AllDigits(text) && !("0x" <= text);
      }
    }
  }

  /** The operation, and whatever the printed argument parses to. */
  function ReadBack(i: Instr): (line: Line)
    ensures line.Code? || line.Bad?
  {
    match ParseArg(ArgWords(i))
    case Ok(a) => Code(Instr(i.op, a))
    case Err(_) => Bad(Core(i))
  }

  /** Parsing a printed line, indented or not. */
  lemma ParsePrinted(i: Instr, raw: string)
    requires Shaped(i) && (raw == Core(i) || raw == "    " + Core(i))
    ensures ParseLine(raw) == ReadBack(i)
  {
    hide Core, ArgWords, ParseArg, Words;
    var core := Core(i);
    CoreTight(i);
    CleanPrinted(core);
    WordsOfCore(i);
    assert ([i.op] + ArgWords(i))[1..] == ArgWords(i);
  }

  lemma CleanPrinted(core: string)
    requires Tight(core) && ';' !in core
    ensures Clean(core) == core && Clean("    " + core) == core
  {
    StripIndented(core);
    BeforeNone(core, ';');
    BeforeNone("    " + core, ';');
  }

  // ---------------------------------------------------------------- how a source line reads

  /** A comment, from its sign to the end of the line, is not read. */
  lemma CommentIgnored(code: string, comment: string)
    requires ';' !in code
    ensures ParseLine(code + ";" + comment) == ParseLine(code)
  {
    BeforeAppend(code, ';', comment);
    BeforeNone(code, ';');
  }

  /** An operation in any case, alone or with one token for an argument. */
  lemma OperationRead(p: string, s: string)
    requires Plain(p) && Plain(s)
    ensures ParseLine(p) == Code(Instr(Upper(p), NoArg))
    ensures ParseArg([s]).Ok? ==> ParseLine(p + " " + s) == Code(Instr(Upper(p), ParseArg([s]).value))
  {
    hide Words, ParseArg, Strip, Before;
    var line := p + " " + s;
    CleanPrinted(p);
    CleanPrinted(line);
    WordsOfTwo(p, s);
    assert [p][1..] == [] && [p, s][1..] == [s];
    NoArgument();
    assert line[|line| - 1] == s[|s| - 1];
  }

  lemma NoArgument()
    ensures ParseArg([]) == Ok(NoArg)
  {
  }

  /** A hexadecimal argument reads as its number, a decimal one too, and the operation in any case. */
  lemma NumbersRead(p: string, n: nat)
    requires Plain(p)
    ensures ParseLine(p + " " + ("0x" + Hex(n))) == Code(Instr(Upper(p), Num(n)))
    ensures ParseLine(p + " " + Decimal(n)) == Code(Instr(Upper(p), Num(n)))
  {
    hide ParseLine, Hex, ParseHex;
    var h := "0x" + Hex(n);
    HexRoundTrip(n);
    assert h[2..] == Hex(n) && h[1] == 'x' && !IsDigit(h[1]);
    assert Plain(h) by { assert forall i | 2 <= i < |h| :: h[i] == Hex(n)[i - 2]; }
    OperationRead(p, h);
    DecimalPlain(n);
    DecimalRoundTrip(n);
    OperationRead(p, Decimal(n));
  }

  /** Exactly the three jumping operations have a name for argument replaced, by what the label table says. */
  lemma JumpsAreResolved(op: string, name: string, labels: map<string, nat>)
    ensures op in {"JUMP", "JUMPI", "CALL"} ==>
              ResolveOne(Instr(op, Name(name)), labels)
              == if name in labels then Ok(Instr(op, Num(labels[name]))) else Err(UndefinedLabel(name))
    ensures op !in {"JUMP", "JUMPI", "CALL"} ==> ResolveOne(Instr(op, Name(name)), labels) == Ok(Instr(op, Name(name)))
  {
  }

  /** A line that ends in a colon is the label before it. */
  lemma LabelRead(name: string)
    requires Tight(name + ":") && ';' !in name
    ensures ParseLine(name + ":") == Label(name) && ParseLine("    " + (name + ":")) == Label(name)
  {
    hide Strip, Before;
    CleanPrinted(name + ":");
  }

  lemma {:induction false} InstructionsOfCode(code: seq<Instr>, lines: seq<Line>)
    requires |lines| == |code| && forall k | 0 <= k < |code| :: lines[k] == Code(code[k])
    ensures Instructions(lines) == code && FirstBad(lines) == None && Labels(lines) == map[]
  {
    if code != [] {
      InstructionsOfCode(code[..|code| - 1], lines[..|lines| - 1]);
      assert code == code[..|code| - 1] + [code[|code| - 1]];
    }
  }

  lemma {:induction false} NothingToResolve(code: seq<Instr>)
    requires forall k | 0 <= k < |code| :: Printable(code[k])
    ensures Resolve(code, map[]) == Ok(code)
  {
    if code != [] {
      NothingToResolve(code[..|code| - 1]);
      assert code == code[..|code| - 1] + [code[|code| - 1]];
    }
  }

  /** Stripping the whole text removes only the first line's indentation. */
  lemma {:induction false} StripPrinted(cores: seq<string>)
    requires cores != [] && forall c | c in cores :: Tight(c)
    ensures var lines := seq(|cores|, k requires 0 <= k < |cores| => "    " + cores[k]);
            Strip(Join(lines, '\n')) == Join([cores[0]] + lines[1..], '\n')
  {
    hide Join, Strip;
    var lines := seq(|cores|, k requires 0 <= k < |cores| => "    " + cores[k]);
    var text := Join([cores[0]] + lines[1..], '\n');
    assert cores[0] in cores && cores[|cores| - 1] in cores;
    JoinEnds([cores[0]] + lines[1..], cores[|cores| - 1]);
    assert Join(lines, '\n') == "    " + text by { JoinFirst("    ", cores[0], lines); }
    StripIndented(text);
  }

  lemma JoinFirst(indent: string, first: string, lines: seq<string>)
    requires lines != [] && lines[0] == indent + first
    ensures Join(lines, '\n') == indent + Join([first] + lines[1..], '\n')
  {
    if |lines| > 1 {
      var rest := Join(lines[1..], '\n');
      assert ([first] + lines[1..])[1..] == lines[1..];
      assert Join([first] + lines[1..], '\n') == first + ['\n'] + rest;
      assert Join(lines, '\n') == (indent + first) + ['\n'] + rest;
    }
  }

  lemma {:induction false} JoinEnds(lines: seq<string>, last: string)
    requires lines != [] && Tight(last) && lines[0] != [] && !IsSpace(lines[0][0])
    requires |last| <= |lines[|lines| - 1]| && lines[|lines| - 1][|lines[|lines| - 1]| - |last|..] == last
    ensures Tight(Join(lines, '\n'))
  {
    JoinLast(lines, last);
  }

  lemma {:induction false} JoinLast(lines: seq<string>, last: string)
    requires lines != [] && last != []
    requires |last| <= |lines[|lines| - 1]| && lines[|lines| - 1][|lines[|lines| - 1]| - |last|..] == last
    ensures var text := Join(lines, '\n');
            text != [] && text[|text| - 1] == last[|last| - 1] && (lines[0] != [] ==> text[0] == lines[0][0])
  {
    if |lines| > 1 { JoinLast(lines[1..], last); }
  }

  lemma {:induction false} ResolvedAt(code: seq<Instr>, labels: map<string, nat>, out: seq<Instr>, k: nat)
    requires Resolve(code, labels) == Ok(out) && k < |code|
    ensures |out| == |code| && ResolveOne(code[k], labels) == Ok(out[k])
    decreases |code|
  {
    var init := code[..|code| - 1];
    if k < |init| {
      ResolvedAt(init, labels, Resolve(init, labels).value, k);
    } else if init != [] {
      ResolvedAt(init, labels, Resolve(init, labels).value, 0);
    }
  }

  /** The printed text parses line by line. */
  lemma ParsedPrinted(code: seq<Instr>)
    requires code != [] && forall k | 0 <= k < |code| :: Shaped(code[k])
    ensures var parsed := Parsed(Disassembled(code));
            |parsed| == |code| && forall k | 0 <= k < |code| :: parsed[k] == ReadBack(code[k])
  {
    hide Core, ReadBack, ParseLine, Clean, Split, Strip, Join, Tight;
    var cores := seq(|code|, k requires 0 <= k < |code| => Core(code[k]));
    var lines := seq(|code|, k requires 0 <= k < |code| => "    " + Core(code[k]));
    forall k | 0 <= k < |code| ensures Tight(cores[k]) && '\n' !in cores[k] {
      CoreTight(code[k]);
    }
    assert lines == seq(|cores|, k requires 0 <= k < |cores| => "    " + cores[k]);
    StripPrinted(cores);
    var stripped := [cores[0]] + lines[1..];
    forall p | p in stripped ensures '\n' !in p {}
    SplitJoin(stripped, '\n');
    forall k | 0 <= k < |code| ensures ParseLine(stripped[k]) == ReadBack(code[k]) {
      ParsePrinted(code[k], stripped[k]);
    }
  }

  lemma {:induction false} FirstBadNone(lines: seq<Line>, k: nat)
    requires FirstBad(lines) == None && k < |lines|
    ensures !lines[k].Bad?
    decreases |lines|
  {
    if k < |lines| - 1 { FirstBadNone(lines[..|lines| - 1], k); }
  }

  /**
   * Round trip: for any bytecode with well-formed operations, assembling its disassembly gives it back
   * exactly when its arguments are natural numbers or plain names that are no jump target and do not
   * look like numbers.
   */
  lemma RoundTripIff(code: seq<Instr>)
    requires forall k | 0 <= k < |code| :: Shaped(code[k])
    ensures AssembleLines(Parsed(Disassembled(code))) == Ok(code) <==> forall k | 0 <= k < |code| :: Printable(code[k])
  {
    if code == [] {
      assert Disassembled(code) == [];
      assert Parsed([]) == [Blank];
      assert [Blank][..0] == [];
      assert Instructions([Blank]) == [] && FirstBad([Blank]) == None;
    } else if forall k | 0 <= k < |code| :: Printable(code[k]) {
      var parsed := Parsed(Disassembled(code));
      ParsedPrinted(code);
      forall k | 0 <= k < |code| ensures parsed[k] == Code(code[k]) {
        ArgumentRoundTripsIff(code[k]);
      }
      InstructionsOfCode(code, parsed);
      NothingToResolve(code);
    } else {
      var k :| 0 <= k < |code| && !Printable(code[k]);
      UnprintableIsLost(code, k);
    }
  }

  lemma ReadBackDiffers(i: Instr)
    requires Shaped(i) && !Printable(i) && ReadBack(i).Code?
    ensures ResolveOne(ReadBack(i).instr, map[]) != Ok(i)
  {
    if !(i.arg.Name? && IsJump(i.op)) { ArgumentRoundTripsIff(i); }
  }

  lemma UnprintableIsLost(code: seq<Instr>, k: nat)
    requires (forall k | 0 <= k < |code| :: Shaped(code[k])) && k < |code| && !Printable(code[k])
    ensures AssembleLines(Parsed(Disassembled(code))) != Ok(code)
  {
    hide ReadBack, Shaped, Printable, ResolveOne, Parsed, Disassembled;
    var parsed := Parsed(Disassembled(code));
    ParsedPrinted(code);
    if AssembleLines(parsed) == Ok(code) {
      forall j | 0 <= j < |parsed| ensures parsed[j].Code? {
        FirstBadNone(parsed, j);
      }
      var read := seq(|parsed|, j requires 0 <= j < |parsed| => parsed[j].instr);
      InstructionsOfCode(read, parsed);
      ResolvedAt(read, map[], code, k);
      ReadBackDiffers(code[k]);
    }
  }
}
