/** Day 17: Chronospatial computer. A program of three-bit words runs on a
    machine with three `unsigned long` registers and an instruction pointer;
    each instruction is an opcode word followed by an operand word. Part two
    looks for the least starting value of register A for which the program
    outputs a copy of itself. */
module ChronospatialComputer {
  import opened Outcomes
  import opened Text
  import opened ThreeBitWord

  /** A program word: a `uint3_t` that construction let through. */
  type Word = u: Uint3 | u.WithinBounds() witness Uint3(0)

  /** `Instruction`, in declaration order: the opcode is the position. */
  datatype Instruction = Adv | Bxl | Bst | Jnz | Bxc | Out | Bdv | Cdv

  /** The enumerator's value. */
  function Opcode(i: Instruction): nat {
    match i
    case Adv => 0
    case Bxl => 1
    case Bst => 2
    case Jnz => 3
    case Bxc => 4
    case Out => 5
    case Bdv => 6
    case Cdv => 7
  }

  /** `static_cast<Instruction>` of a word: every word names an instruction,
      the one whose enumerator has the word's value. */
  function InstructionOf(w: Word): (r: Instruction)
    ensures Opcode(r) == w.Get()
  {
    [Adv, Bxl, Bst, Jnz, Bxc, Out, Bdv, Cdv][w.Get()]
  }

  /** `DeviceData`. */
  datatype Device = Device(program: seq<Word>, ip: nat, regA: ULong, regB: ULong, regC: ULong)

  /** The registers an instruction may write. */
  datatype Register = A | B | C

  function Read(d: Device, r: Register): ULong {
    match r
    case A => d.regA
    case B => d.regB
    case C => d.regC
  }

  function Write(d: Device, r: Register, v: ULong): (e: Device)
    ensures Read(e, r) == v
    ensures forall s :: s != r ==> Read(e, s) == Read(d, s)
    ensures e.program == d.program && e.ip == d.ip
  {
    match r
    case A => d.(regA := v)
    case B => d.(regB := v)
    case C => d.(regC := v)
  }

  /** The message of the `invalid_argument` for the reserved combo operand. */
  const ReservedOperand: string := "Operand cannot be '7', value is reserved"

  /** The `std::out_of_range` that `vector::at` throws past the end; the
      model names the exception type, not the library's message text. */
  const OperandMissing: string := "std::out_of_range"

  /** `evaluate_combo_operand`. */
  function Combo(operand: Word, d: Device): (r: Result<ULong>)
    ensures operand.Get() <= 3 ==> r == Ok(operand.Get())
    ensures operand.Get() == 4 ==> r == Ok(d.regA)
    ensures operand.Get() == 5 ==> r == Ok(d.regB)
    ensures operand.Get() == 6 ==> r == Ok(d.regC)
    ensures r.Err? <==> operand.Get() == 7
    ensures r.Err? ==> r.message == ReservedOperand
  {
    match operand.Get()
    case 4 => Ok(d.regA)
    case 5 => Ok(d.regB)
    case 6 => Ok(d.regC)
    case 7 => Err(ReservedOperand)
    case _ => Ok(operand.ToInt())
  }

  function Pow2(k: nat): (r: nat)
    ensures r >= 1
  {
    if k == 0 then 1 else 2 * Pow2(k - 1)
  }

  lemma {:induction false} Pow2Add(m: nat, n: nat)
    ensures Pow2(m + n) == Pow2(m) * Pow2(n)
    decreases m
  {
    if m > 0 {
      Pow2Add(m - 1, n);
    }
  }

  /** 2 to the 64th is one more than the largest `unsigned long`. */
  lemma Pow2Of64()
    ensures Pow2(64) == ULongLimit
  {
    assert Pow2(4) == 16;
    Pow2Add(4, 4);
    assert Pow2(8) == 0x100;
    Pow2Add(8, 8);
    assert Pow2(16) == 0x1_0000;
    Pow2Add(16, 16);
    assert Pow2(32) == 0x1_0000_0000;
    Pow2Add(32, 32);
  }

  /** Dividing by a positive number never makes a natural larger. */
  lemma DivisionShrinks(a: nat, p: nat)
    requires p >= 1
    ensures a / p <= a
  {
    var q := a / p;
    assert a == q * p + a % p;
    assert q <= q * p by {
      if q > 0 {
        assert q * p == q + q * (p - 1);
      }
    }
  }

  /** A number written as twice a half plus a bit. */
  lemma Halves(h: nat, bit: nat)
    requires bit < 2
    ensures (2 * h + bit) / 2 == h && (2 * h + bit) % 2 == bit
  {
  }

  /** Bitwise exclusive or, lowest bit first. */
  function BitXor(a: nat, b: nat): nat
    decreases a + b
  {
    if a == 0 && b == 0 then 0
    else 2 * BitXor(a / 2, b / 2) + (a % 2 + b % 2) % 2
  }

  /** Xor of two numbers of n bits has n bits. */
  lemma {:induction false} BitXorBelow(a: nat, b: nat, n: nat)
    requires a < Pow2(n) && b < Pow2(n)
    ensures BitXor(a, b) < Pow2(n)
    decreases n
  {
    if !(a == 0 && b == 0) {
      BitXorBelow(a / 2, b / 2, n - 1);
    }
  }

  /** Xor with the same number twice gives back the first. */
  lemma {:induction false} BitXorCancel(a: nat, b: nat)
    ensures BitXor(BitXor(a, b), b) == a
    decreases a + b
  {
    if !(a == 0 && b == 0) {
      Halves(BitXor(a / 2, b / 2), (a % 2 + b % 2) % 2);
      BitXorUnfold(BitXor(a, b), b);
      BitXorCancel(a / 2, b / 2);
      ParityCancel(a % 2, b % 2);
    }
  }

  /** The defining step of `BitXor` also holds when both are 0. */
  lemma BitXorUnfold(a: nat, b: nat)
    ensures BitXor(a, b) == 2 * BitXor(a / 2, b / 2) + (a % 2 + b % 2) % 2
  {
  }

  lemma ParityCancel(p: nat, q: nat)
    requires p < 2 && q < 2
    ensures ((p + q) % 2 + q) % 2 == p
  {
  }

  /** `^` on `unsigned long`. */
  function Xor(a: ULong, b: ULong): (r: ULong)
    ensures BitXor(r, b) == a
  {
    Pow2Of64();
    BitXorBelow(a, b, 64);
    BitXorCancel(a, b);
    BitXor(a, b)
  }

  /** What executing one instruction came to: the next device and what it
      printed, an exception, or behaviour the language leaves undefined. */
  datatype Effect = Stepped(device: Device, output: seq<ULong>) | StepThrew(message: string) | StepUndefined

  /** `execute_division`: register `dest` receives register A divided by two
      to the power of the combo operand. The power is a `double` cast to
      `unsigned long`, which is undefined once the combo operand is 64 or
      more. The instruction pointer is not moved here. */
  function Division(dest: Register, operand: Word, d: Device): (r: Effect)
    ensures r.StepThrew? <==> operand.Get() == 7
    ensures r.StepUndefined? <==> operand.Get() != 7 && Combo(operand, d).value >= 64
    ensures r.Stepped? ==> r.output == [] && r.device.program == d.program && r.device.ip == d.ip
    ensures r.Stepped? ==> forall s :: s != dest ==> Read(r.device, s) == Read(d, s)
    ensures r.Stepped? ==> Read(r.device, dest) == d.regA / Pow2(Combo(operand, d).value)
  {
    match Combo(operand, d)
    case Err(m) => StepThrew(m)
    case Ok(c) =>
      if c >= 64 then StepUndefined
      else Stepped(Write(d, dest, Quotient(d.regA, c)), [])
  }

  /** `a` divided by two to the power of `c`. */
  function Quotient(a: ULong, c: nat): (q: ULong)
    ensures q == a / Pow2(c)
  {
    DivisionShrinks(a, Pow2(c));
    a / Pow2(c)
  }

  /** The register a division instruction writes. */
  function Destination(i: Instruction): Register
    requires i.Adv? || i.Bdv? || i.Cdv?
  {
    match i
    case Adv => A
    case Bdv => B
    case Cdv => C
  }

  /** The instruction pointer moves past an instruction that did not jump. */
  function Advance(e: Effect): (r: Effect)
    ensures r.Stepped? <==> e.Stepped?
    ensures r.Stepped? ==> r.device == e.device.(ip := e.device.ip + 2) && r.output == e.output
    ensures !r.Stepped? ==> r == e
  {
    if e.Stepped? then Stepped(e.device.(ip := e.device.ip + 2), e.output) else e
  }

  /** The instructions whose operand is a combo operand. */
  predicate TakesCombo(i: Instruction) {
    i.Bst? || i.Out? || i.Adv? || i.Bdv? || i.Cdv?
  }

  /** The instruction under the instruction pointer. */
  function Current(d: Device): (i: Instruction)
    requires d.ip < |d.program|
    ensures Opcode(i) == d.program[d.ip].Get()
  {
    InstructionOf(d.program[d.ip])
  }

  /** One pass of the loop in `execute_instructions`. */
  function Step(d: Device): (r: Effect)
    requires d.ip < |d.program|
    ensures r.StepThrew? <==>
      d.ip + 1 == |d.program| || (TakesCombo(Current(d)) && d.program[d.ip + 1].Get() == 7)
    ensures r.StepUndefined? ==> d.ip + 1 < |d.program| && Current(d) in {Adv, Bdv, Cdv}
    ensures r.Stepped? ==> r.device.program == d.program
    ensures r.Stepped? ==>
      r.device.ip == (if Current(d) == Jnz && d.regA != 0 then d.program[d.ip + 1].Get() else d.ip + 2)
    ensures r.Stepped? ==> (r.output != [] <==> Current(d) == Out)
    ensures r.Stepped? ==> |r.output| <= 1 && forall k :: 0 <= k < |r.output| ==> r.output[k] < 8
  {
    var instruction := Current(d);
    if d.ip + 1 >= |d.program| then StepThrew(OperandMissing)
    else
      var operand := d.program[d.ip + 1];
      match instruction
      case Bxl => Stepped(d.(regB := Xor(operand.Get(), d.regB), ip := d.ip + 2), [])
      case Bst =>
        (match Combo(operand, d)
         case Err(m) => StepThrew(m)
         case Ok(c) => Stepped(d.(regB := c % 8, ip := d.ip + 2), []))
      case Jnz =>
        if d.regA == 0 then Stepped(d.(ip := d.ip + 2), [])
        else Stepped(d.(ip := operand.Get()), [])
      case Bxc => Stepped(d.(regB := Xor(d.regB, d.regC), ip := d.ip + 2), [])
      case Out =>
        (match Combo(operand, d)
         case Err(m) => StepThrew(m)
         case Ok(c) => Stepped(d.(ip := d.ip + 2), [c % 8]))
      case Adv => Advance(Division(A, operand, d))
      case Bdv => Advance(Division(B, operand, d))
      case Cdv => Advance(Division(C, operand, d))
  }

  /** Bxl, Bst and Bxc write only register B: the literal xor B, the combo
      operand modulo 8, and B xor C, the last ignoring its operand. */
  lemma RegisterBInstructions(d: Device)
    requires d.ip + 1 < |d.program| && Current(d) in {Bxl, Bst, Bxc}
    requires Step(d).Stepped?
    ensures Step(d).device.regA == d.regA && Step(d).device.regC == d.regC
    ensures Current(d) == Bxl ==> Step(d).device.regB == Xor(d.program[d.ip + 1].Get(), d.regB)
    ensures Current(d) == Bst ==> Step(d).device.regB == Combo(d.program[d.ip + 1], d).value % 8
    ensures Current(d) == Bxc ==> Step(d).device.regB == Xor(d.regB, d.regC)
  {
  }

  /** Adv, Bdv and Cdv divide register A, whichever register they write, by
      two to the power of the combo operand. */
  lemma DivisionInstructions(d: Device)
    requires d.ip + 1 < |d.program| && Current(d) in {Adv, Bdv, Cdv}
    requires Step(d).Stepped?
    ensures var dest, c := Destination(Current(d)), Combo(d.program[d.ip + 1], d);
      c.Ok? && c.value < 64 &&
      Read(Step(d).device, dest) == d.regA / Pow2(c.value) &&
      forall s :: s != dest ==> Read(Step(d).device, s) == Read(d, s)
  {
    var operand := d.program[d.ip + 1];
    var dest, c := Destination(Current(d)), Combo(operand, d);
    var e := Division(dest, operand, d);
    assert Step(d).device == e.device.(ip := d.ip + 2);
  }

  /** Every output is below 8. */
  predicate Octal(outputs: seq<ULong>) {
    forall k :: 0 <= k < |outputs| ==> outputs[k] < 8
  }

  /** How `execute_instructions` ends after at most `fuel` passes of its loop,
      having already printed `outputs`: the loop stops when the instruction
      pointer is at or past the end of the program. */
  datatype Outcome =
    | Halted(outputs: seq<ULong>, device: Device)
    | Threw(message: string)
    | Undefined
    | OutOfFuel(outputs: seq<ULong>, device: Device)

  function Run(d: Device, outputs: seq<ULong>, fuel: nat): (r: Outcome)
    decreases fuel
    ensures r.Halted? ==> r.device.ip >= |d.program| && r.device.program == d.program
    ensures r.OutOfFuel? ==> r.device.ip < |d.program| && r.device.program == d.program
    ensures (r.Halted? || r.OutOfFuel?) ==> outputs <= r.outputs
    ensures (r.Halted? || r.OutOfFuel?) && Octal(outputs) ==> Octal(r.outputs)
  {
    if d.ip >= |d.program| then Halted(outputs, d)
    else if fuel == 0 then OutOfFuel(outputs, d)
    else
      match Step(d)
      case StepThrew(m) => Threw(m)
      case StepUndefined => Undefined
      case Stepped(next, out) => Run(next, outputs + out, fuel - 1)
  }

  /** Fuel only bounds the run: an outcome reached within some fuel is the
      outcome with any more fuel. */
  lemma {:induction false} RunMoreFuel(d: Device, outputs: seq<ULong>, fuel: nat, more: nat)
    requires !Run(d, outputs, fuel).OutOfFuel? && fuel <= more
    ensures Run(d, outputs, more) == Run(d, outputs, fuel)
    decreases fuel
  {
    if d.ip < |d.program| && fuel > 0 && Step(d).Stepped? {
      var e := Step(d);
      RunMoreFuel(e.device, outputs + e.output, fuel - 1, more - 1);
    }
  }

  /** The instruction pointer at the last word leaves no operand to read:
      `at` throws, whatever the instruction. */
  lemma OperandPastEnd(d: Device, outputs: seq<ULong>, fuel: nat)
    requires d.ip + 1 == |d.program| && fuel > 0
    ensures Run(d, outputs, fuel) == Threw(OperandMissing)
  {
  }

  /** One pass of the `switch` in `execute_instructions`: the operand is read
      with `at`, the instruction updates the registers or prints, and the
      instruction pointer moves past it unless Jnz jumped. */
  method ExecuteInstruction(device: Device) returns (e: Effect)
    requires device.ip < |device.program|
    ensures e == Step(device)
  {
    var d := device;
    var instruction := InstructionOf(d.program[d.ip]);
    if d.ip + 1 >= |d.program| {
      return StepThrew(OperandMissing);
    }
    var operand := d.program[d.ip + 1];
    var output: seq<ULong> := [];
    match instruction {
      case Bxl =>
        d := d.(regB := Xor(operand.Get(), d.regB));
      case Bst =>
        var combo := Combo(operand, d);
        if combo.Err? {
          return StepThrew(combo.message);
        }
        d := d.(regB := combo.value % 8);
      case Jnz =>
        if d.regA != 0 {
          return Stepped(d.(ip := operand.Get()), []);
        }
      case Bxc =>
        d := d.(regB := Xor(d.regB, d.regC));
      case Out =>
        var combo := Combo(operand, d);
        if combo.Err? {
          return StepThrew(combo.message);
        }
        output := output + [combo.value % 8];
      case Adv | Bdv | Cdv =>
        var q := Division(Destination(instruction), operand, d);
        if !q.Stepped? {
          return q;
        }
        d := q.device;
    }
    return Stepped(d.(ip := d.ip + 2), output);
  }

  /** `execute_instructions`, stopped after `fuel` passes of its loop. */
  method ExecuteInstructions(device: Device, fuel: nat) returns (r: Outcome)
    ensures r == Run(device, [], fuel)
  {
    var d := device;
    var outputs: seq<ULong> := [];
    var left := fuel;
    while d.ip < |d.program|
      invariant Run(d, outputs, left) == Run(device, [], fuel)
      decreases left
    {
      if left == 0 {
        return OutOfFuel(outputs, d);
      }
      var e := ExecuteInstruction(d);
      match e {
        case StepThrew(m) =>
          return Threw(m);
        case StepUndefined =>
          return Undefined;
        case Stepped(next, output) =>
          d, outputs := next, outputs + output;
      }
      left := left - 1;
    }
    return Halted(outputs, d);
  }

  /** The lambda `is_program_copy`: as many outputs as words, each equal to
      its word. */
  predicate Copies(program: seq<Word>, outputs: seq<ULong>) {
    |outputs| == |program| && forall i :: 0 <= i < |program| ==> program[i].Equals(outputs[i])
  }

  method IsProgramCopy(program: seq<Word>, outputs: seq<ULong>) returns (b: bool)
    ensures b == Copies(program, outputs)
  {
    if |outputs| != |program| {
      return false;
    }
    for i := 0 to |outputs|
      invariant forall j :: 0 <= j < i ==> program[j].Equals(outputs[j])
    {
      if !program[i].Equals(outputs[i]) {
        return false;
      }
    }
    return true;
  }

  /** The run `find_min_copying_condition` makes with register A set to `a`. */
  function Trial(device: Device, a: ULong, fuel: nat): Outcome {
    Run(device.(regA := a), [], fuel)
  }

  /** Register A starting at `a` makes the program print itself. */
  predicate CopyingCondition(device: Device, a: ULong, fuel: nat) {
    Trial(device, a, fuel).Halted? && Copies(device.program, Trial(device, a, fuel).outputs)
  }

  /** The search tried `a` and went on: its run ended without a copy. */
  predicate Rejected(device: Device, a: ULong, fuel: nat) {
    Trial(device, a, fuel).Halted? && !Copies(device.program, Trial(device, a, fuel).outputs)
  }

  /** How the search ends: at a copying value; at a run that threw, reached
      undefined behaviour or ran out of fuel; or after `tries` rejections. */
  datatype Search = Found(regA: ULong) | Stopped(regA: ULong, outcome: Outcome) | Exhausted

  /** `find_min_copying_condition`, trying register A = 0, 1, 2, ... with at
      most `tries` values and `fuel` passes per run. */
  method FindMinCopyingCondition(device: Device, fuel: nat, tries: nat) returns (r: Search)
    requires tries <= ULongLimit
    ensures r.Found? ==> r.regA < tries && CopyingCondition(device, r.regA, fuel)
    ensures r.Stopped? ==> r.regA < tries && r.outcome == Trial(device, r.regA, fuel) && !r.outcome.Halted?
    ensures r.Exhausted? ==> forall b: ULong :: b < tries ==> Rejected(device, b, fuel)
    ensures (r.Found? || r.Stopped?) ==> forall b: ULong :: b < r.regA ==> Rejected(device, b, fuel)
  {
    var a := 0;
    while a < tries
      invariant a <= tries
      invariant forall b: ULong :: b < a ==> Rejected(device, b, fuel)
    {
      var o := ExecuteInstructions(device.(regA := a), fuel);
      if !o.Halted? {
        return Stopped(a, o);
      }
      var copy := IsProgramCopy(device.program, o.outputs);
      if copy {
        return Found(a);
      }
      a := a + 1;
    }
    return Exhausted;
  }
}
