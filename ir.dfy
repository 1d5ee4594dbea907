/**
 * The symbolic IR and its line-oriented parser (`parse_ir`).
 *
 * Each line is trimmed; a line that is then empty or starts with `;` is
 * skipped. Otherwise it is split at whitespace and its first token,
 * upper-cased, selects the instruction. A malformed line aborts the parse
 * with its 1-based line number; the source aborts by panicking, the model
 * returns `Err`.
 */
module Ir {
  import opened Wrappers
  import opened Text

  datatype IR =
    | Push(value: int)
    | Add
    | Subtract
    | Multiply
    | Divide
    | Print
    | Jump(name: string)
    | Call(name: string)
    | ConditionalJump(name: string)
    | Label(name: string)
    | Return
    | Halt

  /** Why a line was refused. */
  datatype Defect =
    | RequiresOneOperand(mnemonic: string)  // an operand mnemonic without exactly one operand
    | InvalidNumber                         // the operand of PUSH is not a decimal i32
    | UnknownInstruction(mnemonic: string)  // the upper-cased first token names nothing

  datatype ParseError = ParseError(line: nat, defect: Defect)

  /** What one line contributes. */
  datatype LineOutcome = Skip | Emit(inst: IR) | Reject(defect: Defect)

  /** The mnemonics that take exactly one operand. */
  predicate TakesOperand(mnemonic: string) {
    mnemonic in {"PUSH", "JUMP", "CALL", "CJUMP", "LABEL"}
  }

  /** The mnemonics that take none (and ignore any that are given). */
  predicate TakesNoOperand(mnemonic: string) {
    mnemonic in {"ADD", "SUBTRACT", "MULTIPLY", "DIVIDE", "PRINT", "RETURN", "HALT"}
  }

  /** The instruction selected by the tokens of a non-blank line. */
  function ParseTokens(parts: seq<string>): LineOutcome
    requires parts != []
  {
    match Upper(parts[0])
    case "PUSH" =>
      if |parts| != 2 then Reject(RequiresOneOperand("PUSH"))
      else (match ParseI32(parts[1])
            case None => Reject(InvalidNumber)
            case Some(v) => Emit(Push(v)))
    case "ADD" => Emit(Add)
    case "SUBTRACT" => Emit(Subtract)
    case "MULTIPLY" => Emit(Multiply)
    case "DIVIDE" => Emit(Divide)
    case "PRINT" => Emit(Print)
    case "JUMP" =>
      if |parts| != 2 then Reject(RequiresOneOperand("JUMP")) else Emit(Jump(parts[1]))
    case "CALL" =>
      if |parts| != 2 then Reject(RequiresOneOperand("CALL")) else Emit(Call(parts[1]))
    case "CJUMP" =>
      if |parts| != 2 then Reject(RequiresOneOperand("CJUMP")) else Emit(ConditionalJump(parts[1]))
    case "RETURN" => Emit(Return)
    case "HALT" => Emit(Halt)
    case "LABEL" =>
      if |parts| != 2 then Reject(RequiresOneOperand("LABEL")) else Emit(Label(parts[1]))
    case other => Reject(UnknownInstruction(other))
  }

  /** A blank line, or one whose first visible character is `;`. */
  predicate IsSkipped(line: string) {
    var trimmed := Trim(line);
    trimmed == [] || trimmed[0] == ';'
  }

  function ParseLine(line: string): LineOutcome {
    var trimmed := Trim(line);
    if trimmed == [] || trimmed[0] == ';' then Skip
    else
      var parts := SplitWhitespace(trimmed);
      if parts == [] then Skip else ParseTokens(parts)
  }

  /** What each line contributes, line by line. */
  function LineOutcomes(lines: seq<string>): (outcomes: seq<LineOutcome>)
    ensures |outcomes| == |lines|
    ensures forall i :: 0 <= i < |lines| ==> outcomes[i] == ParseLine(lines[i])
  {
    seq(|lines|, i requires 0 <= i < |lines| => ParseLine(lines[i]))
  }

  /**
   * The parse of the first `n` lines, given what each line contributes:
   * numbering starts at 1 and the first refused line aborts.
   */
  function Collect(outcomes: seq<LineOutcome>, n: nat): Result<seq<IR>, ParseError>
    requires n <= |outcomes|
  {
    if n == 0 then Ok([])
    else
      match Collect(outcomes, n - 1)
      case Err(e) => Err(e)
      case Ok(insts) =>
        match outcomes[n - 1]
        case Skip => Ok(insts)
        case Emit(inst) => Ok(insts + [inst])
        case Reject(defect) => Err(ParseError(n, defect))
  }

  function Parsed(input: string): Result<seq<IR>, ParseError> {
    var outcomes := LineOutcomes(Lines(input));
    Collect(outcomes, |outcomes|)
  }

  /** Once a line is refused, no later line changes the outcome. */
  lemma {:induction false} CollectErrorSticks(outcomes: seq<LineOutcome>, n: nat, m: nat)
    requires n <= m <= |outcomes| && Collect(outcomes, n).Err?
    ensures Collect(outcomes, m) == Collect(outcomes, n)
    decreases m
  {
    if m > n {
      CollectErrorSticks(outcomes, n, m - 1);
    }
  }

  /** One more line: a skip keeps the instructions, an emit appends one, a refusal ends the whole parse. */
  lemma CollectStep(outcomes: seq<LineOutcome>, n: nat, insts: seq<IR>)
    requires n < |outcomes| && Collect(outcomes, n) == Ok(insts)
    ensures outcomes[n].Skip? ==> Collect(outcomes, n + 1) == Ok(insts)
    ensures outcomes[n].Emit? ==> Collect(outcomes, n + 1) == Ok(insts + [outcomes[n].inst])
    ensures outcomes[n].Reject? ==> Collect(outcomes, |outcomes|) == Err(ParseError(n + 1, outcomes[n].defect))
  {
    if outcomes[n].Reject? {
      CollectErrorSticks(outcomes, n + 1, |outcomes|);
    }
  }

  /**
   * The body of `parse_ir`'s loop for one line: skip it, pick the
   * instruction it spells, or say why it is refused. It keeps the source's
   * statement form (early `continue`s, then one arm per mnemonic) so that it
   * can be read against the loop, and its contract proves it equal to the
   * reference function `ParseLine`, which the lemmas about parsing use.
   */
  method ClassifyLine(line: string) returns (o: LineOutcome)
    ensures o == ParseLine(line)
  {
    var trimmed := Trim(line);
    if trimmed == [] || trimmed[0] == ';' {
      return Skip;
    }
    var parts := SplitWhitespace(trimmed);
    if parts == [] {
      return Skip;
    }
    match Upper(parts[0]) {
      case "PUSH" =>
        if |parts| != 2 {
          return Reject(RequiresOneOperand("PUSH"));
        }
        var num := ParseI32(parts[1]);
        if num.None? {
          return Reject(InvalidNumber);
        }
        o := Emit(Push(num.value));
      case "ADD" => o := Emit(Add);
      case "SUBTRACT" => o := Emit(Subtract);
      case "MULTIPLY" => o := Emit(Multiply);
      case "DIVIDE" => o := Emit(Divide);
      case "PRINT" => o := Emit(Print);
      case "JUMP" =>
        if |parts| != 2 {
          return Reject(RequiresOneOperand("JUMP"));
        }
        o := Emit(Jump(parts[1]));
      case "CALL" =>
        if |parts| != 2 {
          return Reject(RequiresOneOperand("CALL"));
        }
        o := Emit(Call(parts[1]));
      case "CJUMP" =>
        if |parts| != 2 {
          return Reject(RequiresOneOperand("CJUMP"));
        }
        o := Emit(ConditionalJump(parts[1]));
      case "RETURN" => o := Emit(Return);
      case "HALT" => o := Emit(Halt);
      case "LABEL" =>
        if |parts| != 2 {
          return Reject(RequiresOneOperand("LABEL"));
        }
        o := Emit(Label(parts[1]));
      case other =>
        o := Reject(UnknownInstruction(other));
    }
  }

  /** `parse_ir`: the input split into lines, each parsed in turn. */
  method ParseIr(input: string) returns (r: Result<seq<IR>, ParseError>)
    ensures r == Parsed(input)
  {
    var lines := Lines(input);
    r := ParseLines(lines);
  }

  /** The parse of a whole sequence of lines. */
  function ParsedLines(lines: seq<string>): Result<seq<IR>, ParseError> {
    Collect(LineOutcomes(lines), |lines|)
  }

  /** The first `n` lines parse, without error, to `insts`. */
  predicate ParsedUpTo(lines: seq<string>, n: nat, insts: seq<IR>) {
    n <= |lines| && Collect(LineOutcomes(lines), n) == Ok(insts)
  }

  /**
   * One turn of `parse_ir`'s loop: the instructions so far, extended by
   * what line `lineno` contributes, or the error that ends the whole parse.
   */
  method TakeLine(lines: seq<string>, lineno: nat, irInsts: seq<IR>) returns (r: Result<seq<IR>, ParseError>)
    requires lineno < |lines| && ParsedUpTo(lines, lineno, irInsts)
    ensures r.Ok? ==> ParsedUpTo(lines, lineno + 1, r.value)
    ensures r.Err? ==> ParsedLines(lines) == r
  {
    CollectStep(LineOutcomes(lines), lineno, irInsts);
    var outcome := ClassifyLine(lines[lineno]);
    match outcome {
      case Skip =>
        r := Ok(irInsts);
      case Emit(inst) =>
        r := Ok(irInsts + [inst]);
      case Reject(defect) =>
        r := Err(ParseError(lineno + 1, defect));
    }
  }

  /** The loop of `parse_ir` over the lines, numbered from 1. */
  method ParseLines(lines: seq<string>) returns (r: Result<seq<IR>, ParseError>)
    ensures r == ParsedLines(lines)
  {
    var irInsts: seq<IR> := [];
    for lineno := 0 to |lines|
      invariant ParsedUpTo(lines, lineno, irInsts)
    {
      r := TakeLine(lines, lineno, irInsts);
      if r.Err? {
        return;
      }
      irInsts := r.value;
    }
    r := Ok(irInsts);
  }

  // ------------------------------------------------------------ properties

  /** The tokens of a line never ask for it to be skipped. */
  lemma ParseTokensNeverSkips(parts: seq<string>)
    requires parts != []
    ensures !ParseTokens(parts).Skip?
  {
  }

  /** A line is skipped exactly when it is blank or a comment; every other line emits or is refused. */
  lemma ParseLineSkipsIff(line: string)
    ensures ParseLine(line).Skip? <==> IsSkipped(line)
  {
    var trimmed := Trim(line);
    if trimmed != [] && trimmed[0] != ';' {
      assert !AllWhitespace(trimmed);
      ParseTokensNeverSkips(SplitWhitespace(trimmed));
    }
  }

  /** The mnemonic is matched whatever the case of its ASCII letters. */
  lemma MnemonicIgnoresCase(parts: seq<string>)
    requires parts != []
    ensures ParseTokens([AsciiLower(parts[0])] + parts[1..]) == ParseTokens(parts)
  {
    UpperIgnoresAsciiCase(parts[0]);
    var lowered := [AsciiLower(parts[0])] + parts[1..];
    assert lowered[0] == AsciiLower(parts[0]) && |lowered| == |parts|;
    assert |parts| == 2 ==> lowered[1] == parts[1];
  }

  /**
   * A mnemonic that takes an operand needs exactly one: with any other count
   * the line is refused, and with one the operand of JUMP, CALL, CJUMP and
   * LABEL becomes the name verbatim.
   */
  lemma OperandArity(parts: seq<string>)
    requires parts != [] && TakesOperand(Upper(parts[0]))
    ensures |parts| != 2 <==> ParseTokens(parts) == Reject(RequiresOneOperand(Upper(parts[0])))
    ensures |parts| == 2 && Upper(parts[0]) != "PUSH" ==>
              ParseTokens(parts).Emit? && ParseTokens(parts).inst.name == parts[1]
  {
  }

  /** A mnemonic without operands always emits, and ignores any tokens after it. */
  lemma NoOperandIgnoresExtra(parts: seq<string>)
    requires parts != [] && TakesNoOperand(Upper(parts[0]))
    ensures ParseTokens(parts).Emit? && ParseTokens(parts) == ParseTokens([parts[0]])
  {
  }

  /** PUSH emits exactly the value its operand parses to as an i32, and is refused when it does not parse. */
  lemma PushOperand(parts: seq<string>, v: int)
    requires |parts| == 2 && Upper(parts[0]) == "PUSH"
    ensures ParseTokens(parts) == Emit(Push(v)) <==> ParseI32(parts[1]) == Some(v)
    ensures ParseTokens(parts) == Reject(InvalidNumber) <==> ParseI32(parts[1]).None?
  {
  }

  /** A line is refused as unknown exactly when its upper-cased mnemonic is in neither list, and it names that mnemonic. */
  lemma UnknownMnemonic(parts: seq<string>)
    requires parts != []
    ensures ParseTokens(parts) == Reject(UnknownInstruction(Upper(parts[0]))) <==>
            !TakesOperand(Upper(parts[0])) && !TakesNoOperand(Upper(parts[0]))
    ensures ParseTokens(parts).Reject? && ParseTokens(parts).defect.UnknownInstruction? ==>
            ParseTokens(parts).defect.mnemonic == Upper(parts[0])
  {
  }

  /** Collecting succeeds exactly when none of the first `n` lines is refused. */
  lemma {:induction false} CollectSucceedsIff(outcomes: seq<LineOutcome>, n: nat)
    requires n <= |outcomes|
    ensures Collect(outcomes, n).Ok? <==> forall i :: 0 <= i < n ==> !outcomes[i].Reject?
    decreases n
  {
    if n > 0 {
      CollectSucceedsIff(outcomes, n - 1);
    }
  }

  /** The error names the first refused line, numbered from 1, and its defect. */
  lemma CollectFailsAtFirstReject(outcomes: seq<LineOutcome>, n: nat, k: nat)
    requires k < n <= |outcomes| && outcomes[k].Reject?
    requires forall i :: 0 <= i < k ==> !outcomes[i].Reject?
    ensures Collect(outcomes, n) == Err(ParseError(k + 1, outcomes[k].defect))
  {
    CollectSucceedsIff(outcomes, k);
    CollectErrorSticks(outcomes, k + 1, n);
  }

  /** The instructions of the emitting outcomes, in order, refusals ignored. */
  function Emitted(outcomes: seq<LineOutcome>): (insts: seq<IR>)
    ensures |insts| <= |outcomes|
  {
    if outcomes == [] then []
    else (if outcomes[0].Emit? then [outcomes[0].inst] else []) + Emitted(outcomes[1..])
  }

  lemma {:induction false} EmittedAppend(a: seq<LineOutcome>, b: seq<LineOutcome>)
    ensures Emitted(a + b) == Emitted(a) + Emitted(b)
    decreases |a|
  {
    if a == [] {
      assert a + b == b;
    } else {
      assert (a + b)[0] == a[0] && (a + b)[1..] == a[1..] + b;
      EmittedAppend(a[1..], b);
    }
  }

  /** A successful parse keeps exactly the emitted instructions, in line order. */
  lemma {:induction false} CollectKeepsLineOrder(outcomes: seq<LineOutcome>, n: nat)
    requires n <= |outcomes| && Collect(outcomes, n).Ok?
    ensures Collect(outcomes, n).value == Emitted(outcomes[..n])
    decreases n
  {
    if n > 0 {
      CollectKeepsLineOrder(outcomes, n - 1);
      assert outcomes[..n] == outcomes[..n - 1] + [outcomes[n - 1]];
      EmittedAppend(outcomes[..n - 1], [outcomes[n - 1]]);
    }
  }

  /** No line of `lines` is refused. */
  predicate NoLineRefused(lines: seq<string>) {
    forall i :: 0 <= i < |lines| ==> !ParseLine(lines[i]).Reject?
  }

  /** `parse_ir` succeeds exactly when no line is refused. */
  lemma ParsedSucceedsIff(input: string)
    ensures Parsed(input).Ok? <==> NoLineRefused(Lines(input))
  {
    var lines := Lines(input);
    var outcomes := LineOutcomes(lines);
    CollectSucceedsIff(outcomes, |lines|);
    assert (forall i :: 0 <= i < |lines| ==> !outcomes[i].Reject?) ==> NoLineRefused(lines) by {
      forall i | 0 <= i < |lines| ensures outcomes[i] == ParseLine(lines[i]) {}
    }
    assert NoLineRefused(lines) ==> forall i :: 0 <= i < |lines| ==> !outcomes[i].Reject? by {
      forall i | 0 <= i < |lines| ensures outcomes[i] == ParseLine(lines[i]) {}
    }
  }

  /** A successful parse returns the instructions of the non-skipped lines, in line order. */
  lemma ParsedKeepsLineOrder(input: string)
    requires Parsed(input).Ok?
    ensures Parsed(input).value == Emitted(LineOutcomes(Lines(input)))
  {
    var outcomes := LineOutcomes(Lines(input));
    CollectKeepsLineOrder(outcomes, |outcomes|);
    assert outcomes[..|outcomes|] == outcomes;
  }

  /** A failed parse reports the first refused line, numbered from 1. */
  lemma ParsedFailsAtFirstBadLine(input: string, k: nat)
    requires k < |Lines(input)| && ParseLine(Lines(input)[k]).Reject?
    requires forall i :: 0 <= i < k ==> !ParseLine(Lines(input)[i]).Reject?
    ensures Parsed(input) == Err(ParseError(k + 1, ParseLine(Lines(input)[k]).defect))
  {
    var outcomes := LineOutcomes(Lines(input));
    CollectFailsAtFirstReject(outcomes, |outcomes|, k);
  }

  // ------------------------------------------------------------ printing

  /** A label name or operand that survives splitting: one non-empty word. */
  predicate IsWord(s: string) {
    s != [] && NoWhitespace(s)
  }

  /** The instructions that have a textual form: 32-bit values and one-word names. */
  predicate Printable(inst: IR) {
    match inst
    case Push(v) => I32_MIN <= v <= I32_MAX
    case Jump(n) => IsWord(n)
    case Call(n) => IsWord(n)
    case ConditionalJump(n) => IsWord(n)
    case Label(n) => IsWord(n)
    case _ => true
  }

  /** The upper-case mnemonic that selects an instruction. */
  function Mnemonic(inst: IR): (m: string)
    ensures IsWord(m) && m[0] != ';'
  {
    match inst
    case Push(_) => "PUSH"
    case Add => "ADD"
    case Subtract => "SUBTRACT"
    case Multiply => "MULTIPLY"
    case Divide => "DIVIDE"
    case Print => "PRINT"
    case Jump(_) => "JUMP"
    case Call(_) => "CALL"
    case ConditionalJump(_) => "CJUMP"
    case Label(_) => "LABEL"
    case Return => "RETURN"
    case Halt => "HALT"
  }

  /** The instructions written with an operand after the mnemonic. */
  predicate HasOperand(inst: IR) {
    inst.Push? || inst.Jump? || inst.Call? || inst.ConditionalJump? || inst.Label?
  }

  /** The operand as written: the decimal value or the name. */
  function Operand(inst: IR): string
    requires HasOperand(inst)
  {
    if inst.Push? then I32ToDecimal(inst.value) else inst.name
  }

  /** A mnemonic and its operand, one space apart. */
  function WithOperand(mnemonic: string, operand: string): string {
    mnemonic + " " + operand
  }

  /** The canonical line for an instruction: its mnemonic, then its operand if it has one. */
  function Render(inst: IR): string {
    if HasOperand(inst) then WithOperand(Mnemonic(inst), Operand(inst)) else Mnemonic(inst)
  }

  lemma DecimalIsWord(v: int)
    ensures IsWord(I32ToDecimal(v))
  {
    var d := NatToDecimal(if v < 0 then -v else v);
    assert forall i :: 0 <= i < |d| ==> !IsWhitespace(d[i]);
  }

  /** A line holding a single word (not a comment) is parsed from that word alone. */
  lemma WordLineParses(m: string)
    requires IsWord(m) && m[0] != ';'
    ensures ParseLine(m) == ParseTokens([m])
  {
    TrimOfTrimmed(m);
    SplitWhitespaceOfWord(m);
  }

  /** A line holding two words with one space between them is parsed from those two words. */
  lemma TwoWordLineParses(m: string, operand: string)
    requires IsWord(m) && m[0] != ';' && IsWord(operand)
    ensures ParseLine(WithOperand(m, operand)) == ParseTokens([m, operand])
  {
    var line := WithOperand(m, operand);
    assert line[0] == m[0];
    assert line[|line| - 1] == operand[|operand| - 1];
    TrimOfTrimmed(line);
    SplitWhitespaceOfTwoWords(m, operand);
  }

  lemma MnemonicIsUpperCase(inst: IR)
    ensures Upper(Mnemonic(inst)) == Mnemonic(inst)
  {
    UpperOfCapitals(Mnemonic(inst));
  }

  /** Tokens spelling the mnemonic and operand of a printable instruction select it. */
  lemma OperandTokensParse(parts: seq<string>, inst: IR)
    requires HasOperand(inst) && Printable(inst)
    requires |parts| == 2 && Upper(parts[0]) == Mnemonic(inst) && parts[1] == Operand(inst)
    ensures ParseTokens(parts) == Emit(inst)
  {
    if inst.Push? {
      I32RoundTrip(inst.value);
    }
  }

  /** Tokens starting with the mnemonic of an instruction without an operand select it. */
  lemma BareTokensParse(parts: seq<string>, inst: IR)
    requires !HasOperand(inst) && parts != [] && Upper(parts[0]) == Mnemonic(inst)
    ensures ParseTokens(parts) == Emit(inst)
  {
  }

  /** Rendering a printable instruction and parsing the line gives the instruction back. */
  lemma RenderParses(inst: IR)
    requires Printable(inst)
    ensures ParseLine(Render(inst)) == Emit(inst)
  {
    MnemonicIsUpperCase(inst);
    if HasOperand(inst) {
      if inst.Push? {
        DecimalIsWord(inst.value);
      }
      TwoWordLineParses(Mnemonic(inst), Operand(inst));
      var parts := [Mnemonic(inst), Operand(inst)];
      OperandTokensParse(parts, inst);
    } else {
      WordLineParses(Mnemonic(inst));
      var parts := [Mnemonic(inst)];
      BareTokensParse(parts, inst);
    }
  }

  /** A printed instruction fits on one line. */
  lemma RenderHasNoNewline(inst: IR)
    requires Printable(inst)
    ensures forall j :: 0 <= j < |Render(inst)| ==> Render(inst)[j] != '\n'
  {
    if inst.Push? {
      DecimalIsWord(inst.value);
    }
  }

  /** The lines of a printed program, one per instruction. */
  function RenderedLines(insts: seq<IR>): (lines: seq<string>)
    ensures |lines| == |insts| && forall i :: 0 <= i < |insts| ==> lines[i] == Render(insts[i])
  {
    seq(|insts|, i requires 0 <= i < |insts| => Render(insts[i]))
  }

  /** A program printed one instruction per line. */
  function RenderAll(insts: seq<IR>): (text: string) {
    JoinLines(RenderedLines(insts))
  }

  lemma {:induction false} CollectAllEmits(outcomes: seq<LineOutcome>, insts: seq<IR>, n: nat)
    requires n <= |outcomes| == |insts|
    requires forall i :: 0 <= i < |insts| ==> outcomes[i] == Emit(insts[i])
    ensures Collect(outcomes, n) == Ok(insts[..n])
    decreases n
  {
    if n > 0 {
      CollectAllEmits(outcomes, insts, n - 1);
      assert insts[..n] == insts[..n - 1] + [insts[n - 1]];
    }
  }

  /** The printed lines come back apart exactly as they were joined. */
  lemma RenderedLinesSplit(insts: seq<IR>)
    requires insts != [] && forall i :: 0 <= i < |insts| ==> Printable(insts[i])
    ensures Lines(RenderAll(insts)) == RenderedLines(insts)
  {
    var lines := RenderedLines(insts);
    forall i | 0 <= i < |insts|
      ensures forall j :: 0 <= j < |lines[i]| ==> lines[i][j] != '\n'
    {
      RenderHasNoNewline(insts[i]);
    }
    LinesOfJoin(lines);
  }

  /** Each printed line parses to its instruction. */
  lemma RenderedLinesParse(insts: seq<IR>)
    requires forall i :: 0 <= i < |insts| ==> Printable(insts[i])
    ensures forall i :: 0 <= i < |insts| ==> LineOutcomes(RenderedLines(insts))[i] == Emit(insts[i])
  {
    forall i | 0 <= i < |insts|
      ensures LineOutcomes(RenderedLines(insts))[i] == Emit(insts[i])
    {
      RenderParses(insts[i]);
    }
  }

  /** Printing a program of printable instructions and parsing it gives the program back. */
  lemma ParsedRoundTrip(insts: seq<IR>)
    requires forall i :: 0 <= i < |insts| ==> Printable(insts[i])
    ensures Parsed(RenderAll(insts)) == Ok(insts)
  {
    if insts == [] {
      assert Lines([]) == [[]];
      assert ParseLine([]) == Skip;
    } else {
      RenderedLinesSplit(insts);
      RenderedLinesParse(insts);
      CollectAllEmits(LineOutcomes(RenderedLines(insts)), insts, |insts|);
      assert insts[..|insts|] == insts;
    }
  }
}
