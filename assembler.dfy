/**
 * `assemble`: parse the text, then resolve labels in two passes.
 *
 * Pass 1 gives every label the number of non-label instructions declared
 * before it (a later declaration of the same name overrides an earlier one).
 * Pass 2 rewrites every jump, call and conditional jump from a name to that
 * address, copies the other instructions, and drops the labels. A reference
 * to a name that was never declared aborts the assembly.
 */
module Assembler {
  import opened Wrappers
  import opened Ir
  import B = Bytecode

  datatype AsmError =
    | Malformed(error: ParseError)   // parse_ir refused a line
    | UndefinedLabel(name: string)   // a jump, call or conditional jump names no label

  /** The IR instructions that name a label they transfer control to. */
  predicate IsReference(inst: IR) {
    inst.Jump? || inst.Call? || inst.ConditionalJump?
  }

  /** The instructions of `ir` that are not label declarations, in order. */
  function NonLabels(ir: seq<IR>): (r: seq<IR>)
    ensures |r| <= |ir|
    ensures forall k :: 0 <= k < |r| ==> !r[k].Label?
  {
    if ir == [] then []
    else NonLabels(ir[..|ir| - 1]) + (if ir[|ir| - 1].Label? then [] else [ir[|ir| - 1]])
  }

  /** Pass 1: the address of each label declared in `ir`. */
  function LabelMap(ir: seq<IR>): map<string, nat> {
    if ir == [] then map[]
    else
      var labels := LabelMap(ir[..|ir| - 1]);
      var last := ir[|ir| - 1];
      if last.Label? then labels[last.name := |NonLabels(ir[..|ir| - 1])|] else labels
  }

  /** Pass 2 for one instruction: its bytecode, none for a label, or the undefined name. */
  function Resolve(inst: IR, labels: map<string, nat>): Result<Option<B.Instruction>, AsmError> {
    match inst
    case Push(v) => Ok(Some(B.Push(v)))
    case Add => Ok(Some(B.Add))
    case Subtract => Ok(Some(B.Subtract))
    case Multiply => Ok(Some(B.Multiply))
    case Divide => Ok(Some(B.Divide))
    case Print => Ok(Some(B.Print))
    case Jump(name) =>
      if name in labels then Ok(Some(B.Jump(labels[name]))) else Err(UndefinedLabel(name))
    case Call(name) =>
      if name in labels then Ok(Some(B.Call(labels[name]))) else Err(UndefinedLabel(name))
    case ConditionalJump(name) =>
      if name in labels then Ok(Some(B.ConditionalJump(labels[name]))) else Err(UndefinedLabel(name))
    case Return => Ok(Some(B.Return))
    case Halt => Ok(Some(B.Halt))
    case Label(_) => Ok(None)
  }

  /** Pass 2 over all of `ir`, stopping at the first undefined name. */
  function Rewrite(ir: seq<IR>, labels: map<string, nat>): Result<seq<B.Instruction>, AsmError> {
    if ir == [] then Ok([])
    else
      match Rewrite(ir[..|ir| - 1], labels)
      case Err(e) => Err(e)
      case Ok(out) =>
        match Resolve(ir[|ir| - 1], labels)
        case Err(e) => Err(e)
        case Ok(None) => Ok(out)
        case Ok(Some(inst)) => Ok(out + [inst])
  }

  function AssembledIr(ir: seq<IR>): Result<seq<B.Instruction>, AsmError> {
    Rewrite(ir, LabelMap(ir))
  }

  function Assembled(input: string): Result<seq<B.Instruction>, AsmError> {
    match Parsed(input)
    case Err(e) => Err(Malformed(e))
    case Ok(ir) => AssembledIr(ir)
  }

  /** Once an undefined name is met, the rest of the program does not matter. */
  lemma {:induction false} RewriteErrorSticks(ir: seq<IR>, labels: map<string, nat>, n: nat)
    requires n <= |ir| && Rewrite(ir[..n], labels).Err?
    ensures Rewrite(ir, labels) == Rewrite(ir[..n], labels)
    decreases |ir|
  {
    if n < |ir| {
      assert ir[..|ir| - 1][..n] == ir[..n];
      RewriteErrorSticks(ir[..|ir| - 1], labels, n);
    } else {
      assert ir[..n] == ir;
    }
  }

  /** One turn of pass 1: a label is mapped to the current count of non-labels, anything else bumps the count. */
  lemma LabelMapStep(ir: seq<IR>, i: nat)
    requires i < |ir|
    ensures LabelMap(ir[..i + 1]) ==
            if ir[i].Label? then LabelMap(ir[..i])[ir[i].name := |NonLabels(ir[..i])|] else LabelMap(ir[..i])
    ensures |NonLabels(ir[..i + 1])| == |NonLabels(ir[..i])| + (if ir[i].Label? then 0 else 1)
  {
    assert ir[..i + 1][..i] == ir[..i];
  }

  /** One turn of pass 2: the rewrite of a longer prefix extends that of the shorter one by at most one instruction. */
  lemma RewriteStep(ir: seq<IR>, labels: map<string, nat>, i: nat, out: seq<B.Instruction>)
    requires i < |ir| && Rewrite(ir[..i], labels) == Ok(out)
    ensures Rewrite(ir[..i + 1], labels) ==
            match Resolve(ir[i], labels)
            case Err(e) => Err(e)
            case Ok(None) => Ok(out)
            case Ok(Some(inst)) => Ok(out + [inst])
  {
    assert ir[..i + 1][..i] == ir[..i];
  }

  /** Pass 1 of `assemble`: walk the IR counting non-labels and record each label at the count so far. */
  method AssignAddresses(irInsts: seq<IR>) returns (labelMap: map<string, nat>)
    ensures labelMap == LabelMap(irInsts)
  {
    labelMap := map[];
    var currIndex: nat := 0;
    for i := 0 to |irInsts|
      invariant labelMap == LabelMap(irInsts[..i])
      invariant currIndex == |NonLabels(irInsts[..i])|
    {
      LabelMapStep(irInsts, i);
      if irInsts[i].Label? {
        labelMap := labelMap[irInsts[i].name := currIndex];
      } else {
        currIndex := currIndex + 1;
      }
    }
    assert irInsts[..|irInsts|] == irInsts;
  }

  /** Pass 2 of `assemble`: copy each instruction, resolving names and dropping labels. */
  method ResolveReferences(irInsts: seq<IR>, labelMap: map<string, nat>) returns (r: Result<seq<B.Instruction>, AsmError>)
    ensures r == Rewrite(irInsts, labelMap)
  {
    var finalInsts: seq<B.Instruction> := [];
    for i := 0 to |irInsts|
      invariant Rewrite(irInsts[..i], labelMap) == Ok(finalInsts)
    {
      RewriteStep(irInsts, labelMap, i, finalInsts);
      match irInsts[i] {
        case Push(value) => finalInsts := finalInsts + [B.Push(value)];
        case Add => finalInsts := finalInsts + [B.Add];
        case Subtract => finalInsts := finalInsts + [B.Subtract];
        case Multiply => finalInsts := finalInsts + [B.Multiply];
        case Divide => finalInsts := finalInsts + [B.Divide];
        case Print => finalInsts := finalInsts + [B.Print];
        case Jump(name) =>
          if name !in labelMap {
            RewriteErrorSticks(irInsts, labelMap, i + 1);
            return Err(UndefinedLabel(name));
          }
          finalInsts := finalInsts + [B.Jump(labelMap[name])];
        case Call(name) =>
          if name !in labelMap {
            RewriteErrorSticks(irInsts, labelMap, i + 1);
            return Err(UndefinedLabel(name));
          }
          finalInsts := finalInsts + [B.Call(labelMap[name])];
        case ConditionalJump(name) =>
          if name !in labelMap {
            RewriteErrorSticks(irInsts, labelMap, i + 1);
            return Err(UndefinedLabel(name));
          }
          finalInsts := finalInsts + [B.ConditionalJump(labelMap[name])];
        case Return => finalInsts := finalInsts + [B.Return];
        case Halt => finalInsts := finalInsts + [B.Halt];
        case Label(_) =>
      }
    }
    assert irInsts[..|irInsts|] == irInsts;
    r := Ok(finalInsts);
  }

  /** `assemble`: parse the text, then the label pass, then the rewriting pass. */
  method Assemble(input: string) returns (r: Result<seq<B.Instruction>, AsmError>)
    ensures r == Assembled(input)
  {
    var parsed := ParseIr(input);
    if parsed.Err? {
      return Err(Malformed(parsed.error));
    }
    var labelMap := AssignAddresses(parsed.value);
    r := ResolveReferences(parsed.value, labelMap);
  }

  // ------------------------------------------------------------ properties

  /** `y` is the bytecode form of the non-label `x`, a name replaced by its address in `labels`. */
  predicate Translates(x: IR, y: B.Instruction, labels: map<string, nat>) {
    match x
    case Push(v) => y == B.Push(v)
    case Add => y == B.Add
    case Subtract => y == B.Subtract
    case Multiply => y == B.Multiply
    case Divide => y == B.Divide
    case Print => y == B.Print
    case Jump(n) => n in labels && y == B.Jump(labels[n])
    case Call(n) => n in labels && y == B.Call(labels[n])
    case ConditionalJump(n) => n in labels && y == B.ConditionalJump(labels[n])
    case Return => y == B.Return
    case Halt => y == B.Halt
    case Label(_) => false
  }

  /** Every name that `ir` references is declared in `labels`. */
  predicate AllReferencesDefined(ir: seq<IR>, labels: map<string, nat>) {
    forall k :: 0 <= k < |ir| && IsReference(ir[k]) ==> ir[k].name in labels
  }

  /** The non-labels of a program are those of any prefix followed by those of the rest. */
  lemma {:induction false} NonLabelsSplit(ir: seq<IR>, k: nat)
    requires k <= |ir|
    ensures NonLabels(ir) == NonLabels(ir[..k]) + NonLabels(ir[k..])
    decreases |ir|
  {
    if |ir| == k {
      assert ir[..k] == ir;
      assert ir[k..] == [];
    } else {
      var init := ir[..|ir| - 1];
      NonLabelsSplit(init, k);
      assert init[..k] == ir[..k];
      assert ir[k..][..|ir[k..]| - 1] == init[k..];
    }
  }

  /** Rewriting succeeds exactly when every referenced name is declared. */
  lemma {:induction false} RewriteSucceedsIff(ir: seq<IR>, labels: map<string, nat>)
    ensures Rewrite(ir, labels).Ok? <==> AllReferencesDefined(ir, labels)
    decreases |ir|
  {
    if ir != [] {
      var init := ir[..|ir| - 1];
      RewriteSucceedsIff(init, labels);
      assert forall k :: 0 <= k < |init| ==> init[k] == ir[k];
    }
  }

  /**
   * A successful rewrite emits one instruction per non-label, in order,
   * each the translation of its IR counterpart.
   */
  lemma {:induction false} RewriteCorresponds(ir: seq<IR>, labels: map<string, nat>)
    requires Rewrite(ir, labels).Ok?
    ensures var out := Rewrite(ir, labels).value;
      |out| == |NonLabels(ir)| && forall k :: 0 <= k < |out| ==> Translates(NonLabels(ir)[k], out[k], labels)
    decreases |ir|
  {
    if ir != [] {
      RewriteCorresponds(ir[..|ir| - 1], labels);
    }
  }

  /** The first reference to an undeclared name is the one reported. */
  lemma RewriteFailsAtFirstUndefined(ir: seq<IR>, labels: map<string, nat>, k: nat)
    requires k < |ir| && IsReference(ir[k]) && ir[k].name !in labels
    requires AllReferencesDefined(ir[..k], labels)
    ensures Rewrite(ir, labels) == Err(UndefinedLabel(ir[k].name))
  {
    RewriteSucceedsIff(ir[..k], labels);
    assert ir[..k + 1][..k] == ir[..k];
    RewriteErrorSticks(ir, labels, k + 1);
  }

  /** A name has an address exactly when some line declares it. */
  lemma {:induction false} LabelMapDomain(ir: seq<IR>, name: string)
    ensures name in LabelMap(ir) <==> exists k :: 0 <= k < |ir| && ir[k] == Label(name)
    decreases |ir|
  {
    if ir != [] {
      var init := ir[..|ir| - 1];
      LabelMapDomain(init, name);
      if name in LabelMap(init) {
        var k :| 0 <= k < |init| && init[k] == Label(name);
        assert ir[k] == Label(name);
      }
      if exists k :: 0 <= k < |ir| && ir[k] == Label(name) {
        var k :| 0 <= k < |ir| && ir[k] == Label(name);
        if k < |init| {
          assert init[k] == Label(name);
        }
      }
    }
  }

  /**
   * The address of a name is the count of non-labels before its last
   * declaration, whether references to it come before or after.
   */
  lemma {:induction false} LabelAddressIsLastDeclaration(ir: seq<IR>, j: nat)
    requires j < |ir| && ir[j].Label?
    requires forall k :: j < k < |ir| ==> ir[k] != Label(ir[j].name)
    ensures ir[j].name in LabelMap(ir) && LabelMap(ir)[ir[j].name] == |NonLabels(ir[..j])|
    decreases |ir|
  {
    var init := ir[..|ir| - 1];
    if j < |init| {
      LabelAddressIsLastDeclaration(init, j);
      assert init[..j] == ir[..j];
    } else {
      assert init == ir[..j];
    }
  }

  /** No label address lies beyond the end of the emitted program. */
  lemma {:induction false} LabelAddressesInRange(ir: seq<IR>)
    ensures forall name :: name in LabelMap(ir) ==> LabelMap(ir)[name] <= |NonLabels(ir)|
    decreases |ir|
  {
    if ir != [] {
      LabelAddressesInRange(ir[..|ir| - 1]);
    }
  }

  /** Every jump, call and conditional jump that the assembler emits targets an index at most the program length. */
  lemma AssembledTargetsInRange(ir: seq<IR>)
    requires AssembledIr(ir).Ok?
    ensures B.TargetsWithin(AssembledIr(ir).value, |AssembledIr(ir).value|)
  {
    RewriteCorresponds(ir, LabelMap(ir));
    LabelAddressesInRange(ir);
  }

  /** The assembler never emits the variants that have no IR form. */
  lemma AssemblerEmitsOnlyIrForms(ir: seq<IR>)
    requires AssembledIr(ir).Ok?
    ensures forall k :: 0 <= k < |AssembledIr(ir).value| ==> !B.HasNoIrForm(AssembledIr(ir).value[k])
  {
    RewriteCorresponds(ir, LabelMap(ir));
  }

  /**
   * Assembly fails exactly when some referenced name is declared nowhere in
   * the program, forward and backward references alike.
   */
  lemma AssembledIrSucceedsIff(ir: seq<IR>)
    ensures AssembledIr(ir).Ok? <==>
            forall k :: 0 <= k < |ir| && IsReference(ir[k]) ==> exists j :: 0 <= j < |ir| && ir[j] == Label(ir[k].name)
  {
    RewriteSucceedsIff(ir, LabelMap(ir));
    forall k | 0 <= k < |ir| && IsReference(ir[k]) {
      LabelMapDomain(ir, ir[k].name);
    }
  }

  /** The non-label at index `k` sits in the non-label sequence right after those before it. */
  lemma NonLabelAt(ir: seq<IR>, k: nat)
    requires k < |ir| && !ir[k].Label?
    ensures |NonLabels(ir[..k])| < |NonLabels(ir)| && NonLabels(ir)[|NonLabels(ir[..k])|] == ir[k]
  {
    assert ir[..k + 1][..k] == ir[..k];
    NonLabelsSplit(ir, k + 1);
  }

  /**
   * Between positions `j` and `m` the count of non-labels only grows, and it
   * stays the same exactly when everything in between is a label.
   */
  lemma {:induction false} NonLabelsCountIff(ir: seq<IR>, j: nat, m: nat)
    requires j <= m <= |ir|
    ensures |NonLabels(ir[..j])| <= |NonLabels(ir[..m])|
    ensures |NonLabels(ir[..m])| == |NonLabels(ir[..j])| <==> forall i :: j <= i < m ==> ir[i].Label?
    decreases m
  {
    if m > j {
      NonLabelsCountIff(ir, j, m - 1);
      assert ir[..m][..m - 1] == ir[..m - 1];
    }
  }

  /**
   * The instruction emitted for the `k`-th IR line sits at the count of
   * non-labels before it and is that line's translation; for a reference,
   * its target is the name's address.
   */
  lemma EmittedAtItsPosition(ir: seq<IR>, k: nat)
    requires AssembledIr(ir).Ok? && k < |ir| && !ir[k].Label?
    ensures var out, at := AssembledIr(ir).value, |NonLabels(ir[..k])|;
      at < |out| && Translates(ir[k], out[at], LabelMap(ir))
      && (IsReference(ir[k]) ==> out[at].target == LabelMap(ir)[ir[k].name])
  {
    RewriteCorresponds(ir, LabelMap(ir));
    NonLabelAt(ir, k);
  }

  /**
   * A label's address is the end of the assembled program exactly when
   * only labels follow its last declaration.
   */
  lemma LabelAddressIsEnd(ir: seq<IR>, j: nat)
    requires AssembledIr(ir).Ok? && j < |ir| && ir[j].Label?
    requires forall k :: j < k < |ir| ==> ir[k] != Label(ir[j].name)
    ensures ir[j].name in LabelMap(ir)
    ensures LabelMap(ir)[ir[j].name] == |AssembledIr(ir).value| <==> forall m :: j < m < |ir| ==> ir[m].Label?
  {
    LabelAddressIsLastDeclaration(ir, j);
    RewriteCorresponds(ir, LabelMap(ir));
    NonLabelsCountIff(ir, j, |ir|);
    assert ir[..|ir|] == ir;
  }

  /** Otherwise it is the position of the first instruction after the declaration that is not a label. */
  lemma LabelLandsAfterDeclaration(ir: seq<IR>, j: nat, m: nat)
    requires AssembledIr(ir).Ok? && j < m < |ir| && ir[j].Label? && !ir[m].Label?
    requires forall k :: j < k < |ir| ==> ir[k] != Label(ir[j].name)
    requires forall i :: j < i < m ==> ir[i].Label?
    ensures ir[j].name in LabelMap(ir)
    ensures var out, addr := AssembledIr(ir).value, LabelMap(ir)[ir[j].name];
      addr < |out| && Translates(ir[m], out[addr], LabelMap(ir))
  {
    LabelAddressIsLastDeclaration(ir, j);
    NonLabelsCountIff(ir, j, m);
    EmittedAtItsPosition(ir, m);
  }
}
