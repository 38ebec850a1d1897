/**
  The script assembler: code is emitted with empty two-byte slots for jump and call targets, labels are
  recorded where they are emitted, and the slots are filled in at the end.
 */
module ScriptAssembler {
  import opened Words
  import opened VmBinary

  const NOP: Byte := 0
  const CALL: Byte := 6
  const JMP: Byte := 8
  const JMP_IF: Byte := 9
  const JMP_NOT: Byte := 10
  const RET: Byte := 11
  const LOAD: Byte := 13

  const MAX_REGISTER_COUNT: Byte := 32
  const MAX_LOAD: nat := 0xFFFF
  const MAX_JUMP_TARGET: nat := 0x7FFF
  const MAX_CALL_TARGET: nat := 0xFFFF

  /** The state of a builder; the slots and labels are offsets into the emitted bytes. */
  datatype Script = Script(bytes: Bytes, slots: map<nat, Bytes>, labels: map<Bytes, nat>, calls: set<nat>, failed: bool)

  const EMPTY := Script([], map[], map[], {}, false)

  function LowerByte(b: Byte): Byte {
    if 0x41 <= b <= 0x5A then b + 0x20 else b
  }

  function Lower(s: Bytes): (r: Bytes)
    ensures |r| == |s|
  {
    seq(|s|, i requires 0 <= i < |s| => LowerByte(s[i]))
  }

  /** The same byte, or the same letter in the other case. */
  predicate SameLetter(a: Byte, b: Byte) {
    a == b || (0x41 <= a <= 0x5A && b == a + 0x20) || (0x41 <= b <= 0x5A && a == b + 0x20)
  }

  /** Names are the same label exactly when they differ in the case of ASCII letters at most. */
  lemma SameLabelExactlyWhen(name: Bytes, other: Bytes)
    ensures Lower(name) == Lower(other) <==> |name| == |other| && forall i :: 0 <= i < |name| ==> SameLetter(name[i], other[i])
  {
    if Lower(name) == Lower(other) {
      forall i | 0 <= i < |name| ensures |name| == |other| && SameLetter(name[i], other[i]) {
        assert Lower(name)[i] == Lower(other)[i];
      }
    }
  }

  /** What a caller can ask for; every other emitter of the builder is a `Raw` or a run of these. */
  datatype Op =
    | Raw(data: Bytes)
    | Load(reg: Byte, data: Bytes, vmType: Byte)
    | Label(name: Bytes)
    | Jump(opcode: Byte, name: Bytes, reg: Byte)
    | Call(name: Bytes, registers: Byte)
    | Fail

  predicate IsJump(opcode: Byte) { opcode == JMP || opcode == JMP_IF || opcode == JMP_NOT }

  predicate Refuses(op: Op) {
    match op
    case Load(_, data, _) => |data| > MAX_LOAD
    case Jump(opcode, _, _) => !IsJump(opcode)
    case Call(_, registers) => registers == 0 || registers > MAX_REGISTER_COUNT
    case Fail => true
    case _ => false
  }

  function LoadBytes(reg: Byte, data: Bytes, vmType: Byte): Bytes {
    [LOAD, reg, vmType] + EncodeVarUInt(|data|) + data
  }

  /** The instruction in front of a slot. */
  function Head(op: Op): Bytes
    requires op.Jump? || op.Call?
  {
    if op.Call? then [CALL, op.registers] else if op.opcode == JMP then [JMP] else [op.opcode, op.reg]
  }

  function Reserve(s: Script, head: Bytes, name: Bytes, call: bool): Script {
    var at := |s.bytes| + |head|;
    s.(bytes := s.bytes + head + [0, 0], slots := s.slots[at := name], calls := if call then s.calls + {at} else s.calls)
  }

  function Step(s: Script, op: Op): Script {
    if Refuses(op) then s.(failed := true) else
      match op
      case Raw(data) => s.(bytes := s.bytes + data)
      case Load(reg, data, vmType) => s.(bytes := s.bytes + LoadBytes(reg, data, vmType))
      case Label(name) => s.(bytes := s.bytes + [NOP], labels := s.labels[Lower(name) := |s.bytes| + 1])
      case Jump(_, name, _) => Reserve(s, Head(op), name, false)
      case Call(name, _) => Reserve(s, Head(op), name, true)
      case Fail => s
  }

  function Run(s: Script, ops: seq<Op>): Script
    decreases ops
  {
    if ops == [] then s else Run(Step(s, ops[0]), ops[1..])
  }

  lemma {:induction false} RunConcat(s: Script, a: seq<Op>, b: seq<Op>)
    ensures Run(s, a + b) == Run(Run(s, a), b)
    decreases a
  {
    if a == [] {
      assert a + b == b;
    } else {
      assert (a + b)[0] == a[0] && (a + b)[1..] == a[1..] + b;
      RunConcat(Step(s, a[0]), a[1..], b);
    }
  }

  // ----- the invariant of every run -----

  predicate InSlot(s: Script, i: int) {
    (i >= 0 && i in s.slots) || (i >= 1 && i - 1 in s.slots)
  }

  /** A slot is two zero bytes inside the code, behind the instruction it belongs to. */
  predicate GoodSlot(s: Script, at: nat) {
    1 <= at && at + 2 <= |s.bytes| && s.bytes[at] == 0 && s.bytes[at + 1] == 0
    && !InSlot(s, at - 1) && at + 1 !in s.slots
    && (if at in s.calls then at >= 2 && s.bytes[at - 2] == CALL && !InSlot(s, at - 2) && 1 <= s.bytes[at - 1] <= MAX_REGISTER_COUNT
        else s.bytes[at - 1] == JMP
             || (at >= 2 && !InSlot(s, at - 2) && (s.bytes[at - 2] == JMP_IF || s.bytes[at - 2] == JMP_NOT)))
  }

  /** A label stands behind a NOP that no slot overlaps. */
  predicate GoodLabel(s: Script, at: nat) {
    1 <= at <= |s.bytes| && s.bytes[at - 1] == NOP && !InSlot(s, at - 1)
  }

  ghost predicate Linked(s: Script) {
    && (forall at <- s.slots :: GoodSlot(s, at))
    && (forall name <- s.labels :: GoodLabel(s, s.labels[name]))
    && (forall at <- s.calls :: at in s.slots)
  }

  lemma SlotsBelow(s: Script)
    requires Linked(s)
    ensures forall i :: InSlot(s, i) ==> i < |s.bytes|
  {
    forall i | InSlot(s, i) ensures i < |s.bytes| {
      if i >= 0 && i in s.slots {
        assert GoodSlot(s, i);
      } else {
        assert GoodSlot(s, i - 1);
      }
    }
  }

  /** Emitting bytes behind the code disturbs nothing in it. */
  lemma Appends(s: Script, t: Script, data: Bytes)
    requires Linked(s) && t == s.(bytes := s.bytes + data)
    ensures Linked(t)
  {
    forall i ensures InSlot(t, i) == InSlot(s, i) {
    }
    forall at | at in t.slots ensures GoodSlot(t, at) {
      assert GoodSlot(s, at);
    }
    forall name | name in t.labels ensures GoodLabel(t, t.labels[name]) {
      assert GoodLabel(s, s.labels[name]);
    }
  }

  lemma Labels(s: Script, name: Bytes)
    requires Linked(s)
    ensures Linked(Step(s, Label(name)))
  {
    var t := s.(bytes := s.bytes + [NOP]);
    Appends(s, t, [NOP]);
    SlotsBelow(s);
    var u := Step(s, Label(name));
    assert GoodLabel(u, |s.bytes| + 1);
    forall at | at in u.slots ensures GoodSlot(u, at) {
      assert GoodSlot(t, at);
    }
    forall n | n in u.labels ensures GoodLabel(u, u.labels[n]) {
      assert n in t.labels ==> GoodLabel(t, t.labels[n]);
    }
  }

  predicate GoodHead(head: Bytes, call: bool) {
    if call then |head| == 2 && head[0] == CALL && 1 <= head[1] <= MAX_REGISTER_COUNT
    else head == [JMP] || (|head| == 2 && (head[0] == JMP_IF || head[0] == JMP_NOT))
  }

  lemma Reserves(s: Script, head: Bytes, name: Bytes, call: bool)
    requires Linked(s) && GoodHead(head, call)
    ensures Linked(Reserve(s, head, name, call))
  {
    var u, at := Reserve(s, head, name, call), |s.bytes| + |head|;
    SlotsBelow(s);
    SlotsAfter(s, u, at, name);
    assert forall i | 0 <= i < |s.bytes| :: u.bytes[i] == s.bytes[i];
    NewSlot(s, head, name, call);
    forall a | a in u.slots && a != at ensures GoodSlot(u, a) {
      OldSlot(s, u, at, a);
    }
    forall n | n in u.labels ensures GoodLabel(u, u.labels[n]) {
      assert GoodLabel(s, s.labels[n]);
    }
  }

  /** The new slot changes nothing about the bytes in front of it. */
  lemma SlotsAfter(s: Script, u: Script, at: nat, name: Bytes)
    requires u.slots == s.slots[at := name]
    ensures forall i :: i < at ==> InSlot(u, i) == InSlot(s, i)
  {
  }

  lemma OldSlot(s: Script, u: Script, at: nat, a: nat)
    requires GoodSlot(s, a) && a in s.slots && |s.bytes| < at && |s.bytes| <= |u.bytes|
    requires u.slots.Keys == s.slots.Keys + {at} && (a in u.calls <==> a in s.calls)
    requires forall i | 0 <= i < |s.bytes| :: u.bytes[i] == s.bytes[i]
    requires forall i :: i < at ==> InSlot(u, i) == InSlot(s, i)
    ensures GoodSlot(u, a)
  {
  }

  lemma NewSlot(s: Script, head: Bytes, name: Bytes, call: bool)
    requires Linked(s) && GoodHead(head, call) && (forall i :: InSlot(s, i) ==> i < |s.bytes|)
    requires forall i :: i < |s.bytes| + |head| ==> InSlot(Reserve(s, head, name, call), i) == InSlot(s, i)
    ensures GoodSlot(Reserve(s, head, name, call), |s.bytes| + |head|)
  {
    var u, at := Reserve(s, head, name, call), |s.bytes| + |head|;
    assert u.bytes[at - |head|..at] == head;
    assert !InSlot(u, at - 1) && (|head| == 2 ==> !InSlot(u, at - 2));
    assert at + 1 in s.slots ==> InSlot(s, at + 1);
    assert at in s.calls ==> InSlot(s, at);
  }

  lemma StepLinked(s: Script, op: Op)
    requires Linked(s)
    ensures Linked(Step(s, op))
  {
    if Refuses(op) {
      Appends(s.(failed := true), s.(failed := true), []);
    } else {
      match op
      case Raw(data) => Appends(s, Step(s, op), data);
      case Load(reg, data, vmType) => Appends(s, Step(s, op), LoadBytes(reg, data, vmType));
      case Label(name) => Labels(s, name);
      case Jump(_, name, _) => Reserves(s, Head(op), name, false);
      case Call(name, _) => Reserves(s, Head(op), name, true);
    }
  }

  /** In every run, slots are disjoint, inside the code and empty, and labels stand behind NOPs. */
  lemma {:induction false} RunLinked(s: Script, ops: seq<Op>)
    requires Linked(s)
    ensures Linked(Run(s, ops))
    decreases ops
  {
    if ops != [] {
      StepLinked(s, ops[0]);
      RunLinked(Step(s, ops[0]), ops[1..]);
    }
  }

  // ----- where an operation ends up -----

  /** `t` is `s` with more behind it: its code starts alike, its slots are kept. */
  ghost predicate Extends(s: Script, t: Script) {
    |s.bytes| <= |t.bytes| && t.bytes[..|s.bytes|] == s.bytes
    && forall at <- s.slots :: at in t.slots && t.slots[at] == s.slots[at] && (at in t.calls <==> at in s.calls)
  }

  lemma StepExtends(s: Script, op: Op)
    requires Linked(s)
    ensures Extends(s, Step(s, op))
  {
    SlotsBelow(s);
    assert forall at <- s.slots :: InSlot(s, at);
  }

  lemma ExtendsTwice(s: Script, t: Script, u: Script)
    requires Extends(s, t) && Extends(t, u)
    ensures Extends(s, u)
  {
    assert u.bytes[..|s.bytes|] == u.bytes[..|t.bytes|][..|s.bytes|];
  }

  lemma {:induction false} RunExtends(s: Script, ops: seq<Op>)
    requires Linked(s)
    ensures Extends(s, Run(s, ops))
    decreases ops
  {
    if ops != [] {
      StepLinked(s, ops[0]);
      StepExtends(s, ops[0]);
      RunExtends(Step(s, ops[0]), ops[1..]);
      ExtendsTwice(s, Step(s, ops[0]), Run(s, ops));
    }
  }

  /** What an accepted operation leaves at offset `at`: its instruction, and the slot its target goes to. */
  ghost predicate Stands(op: Op, at: nat, s: Script) {
    match op
    case Raw(data) => at + |data| <= |s.bytes| && s.bytes[at..at + |data|] == data
    case Load(reg, data, vmType) =>
      at + 3 <= |s.bytes| && s.bytes[at] == 13 && s.bytes[at + 1] == reg && s.bytes[at + 2] == vmType
      && var size := DecodeVarUInt(s.bytes[at + 3..]);
         size.Got? && size.value == |data| <= |size.rest| && size.rest[..|data|] == data
    case Label(_) => at < |s.bytes| && s.bytes[at] == 0
    case Jump(opcode, name, reg) =>
      var slot := if opcode == 8 then at + 1 else at + 2;
      slot + 2 <= |s.bytes| && s.bytes[at] == opcode && (opcode != 8 ==> s.bytes[at + 1] == reg)
      && slot in s.slots && s.slots[slot] == name && slot !in s.calls
    case Call(name, registers) =>
      at + 4 <= |s.bytes| && s.bytes[at] == 6 && s.bytes[at + 1] == registers
      && at + 2 in s.slots && s.slots[at + 2] == name && at + 2 in s.calls
    case Fail => true
  }

  lemma StandsAfterStep(s: Script, op: Op)
    requires Linked(s) && !Refuses(op)
    ensures Stands(op, |s.bytes|, Step(s, op))
  {
    match op
    case Load(reg, data, vmType) => LoadStands(s, reg, data, vmType);
    case Jump(_, _, _) => JumpStands(s, op);
    case Call(_, _) => CallStands(s, op);
    case _ =>
  }

  lemma LoadStands(s: Script, reg: Byte, data: Bytes, vmType: Byte)
    requires |data| <= MAX_LOAD
    ensures Stands(Load(reg, data, vmType), |s.bytes|, s.(bytes := s.bytes + LoadBytes(reg, data, vmType)))
  {
    var at, bytes := |s.bytes|, s.bytes + LoadBytes(reg, data, vmType);
    assert bytes[at + 3..] == EncodeVarUInt(|data|) + data;
    VarUIntBack(|data|, data);
  }

  lemma JumpStands(s: Script, op: Op)
    requires Linked(s) && op.Jump? && !Refuses(op)
    ensures Stands(op, |s.bytes|, Reserve(s, Head(op), op.name, false))
  {
    SlotsBelow(s);
    assert forall i <- s.slots :: InSlot(s, i);
  }

  lemma CallStands(s: Script, op: Op)
    requires op.Call? && !Refuses(op)
    ensures Stands(op, |s.bytes|, Reserve(s, Head(op), op.name, true))
  {
  }

  lemma StandsLater(op: Op, at: nat, s: Script, t: Script)
    requires Stands(op, at, s) && Extends(s, t)
    ensures Stands(op, at, t)
  {
    assert forall i :: 0 <= i < |s.bytes| ==> t.bytes[i] == t.bytes[..|s.bytes|][i] == s.bytes[i];
    if op.Load? {
      var more := t.bytes[|s.bytes|..];
      assert t.bytes[at + 3..] == s.bytes[at + 3..] + more;
      VarUIntMore(s.bytes[at + 3..], more);
      var size := DecodeVarUInt(s.bytes[at + 3..]);
      assert (size.rest + more)[..|op.data|] == size.rest[..|op.data|];
    }
  }

  /** In the code of every run, each accepted operation stands where it was emitted, as the caller asked for it. */
  lemma OperationStands(ops: seq<Op>, k: nat)
    requires k < |ops| && !Refuses(ops[k])
    ensures Stands(ops[k], |Run(EMPTY, ops[..k]).bytes|, Run(EMPTY, ops))
  {
    var s, rest := Run(EMPTY, ops[..k]), ops[k + 1..];
    assert ops == ops[..k] + ([ops[k]] + rest) && ([ops[k]] + rest)[1..] == rest;
    RunConcat(EMPTY, ops[..k], [ops[k]] + rest);
    RunLinked(EMPTY, ops[..k]);
    StepLinked(s, ops[k]);
    StandsAfterStep(s, ops[k]);
    RunExtends(Step(s, ops[k]), rest);
    StandsLater(ops[k], |s.bytes|, Step(s, ops[k]), Run(EMPTY, ops));
  }

  /** A label names the offset behind its NOP, unless a later label of the same name, letter case aside, takes it. */
  lemma LabelStands(ops: seq<Op>, k: nat)
    requires k < |ops| && ops[k].Label?
    requires forall j :: k < j < |ops| && ops[j].Label? ==> Lower(ops[j].name) != Lower(ops[k].name)
    ensures var s, key := Run(EMPTY, ops), Lower(ops[k].name);
            key in s.labels && s.labels[key] == |Run(EMPTY, ops[..k]).bytes| + 1
  {
    var s, rest := Run(EMPTY, ops[..k]), ops[k + 1..];
    assert ops == ops[..k] + ([ops[k]] + rest) && ([ops[k]] + rest)[1..] == rest;
    RunConcat(EMPTY, ops[..k], [ops[k]] + rest);
    LabelKept(Step(s, ops[k]), rest, Lower(ops[k].name));
  }

  lemma {:induction false} LabelKept(s: Script, ops: seq<Op>, key: Bytes)
    requires key in s.labels && forall j :: 0 <= j < |ops| && ops[j].Label? ==> Lower(ops[j].name) != key
    ensures var t := Run(s, ops); key in t.labels && t.labels[key] == s.labels[key]
    decreases ops
  {
    if ops != [] {
      LabelKept(Step(s, ops[0]), ops[1..], key);
    }
  }

  // ----- linking -----

  function Target(s: Script, at: nat): Option<nat>
    requires at in s.slots
  {
    var key := Lower(s.slots[at]);
    if key in s.labels then Some(s.labels[key]) else None
  }

  /** A jump target is read as a signed 16-bit number, a call target as an unsigned one. */
  function Limit(s: Script, at: nat): nat {
    if at in s.calls then MAX_CALL_TARGET else MAX_JUMP_TARGET
  }

  predicate Resolves(s: Script, at: nat)
    requires at in s.slots
  {
    Target(s, at).Some? && Target(s, at).value <= Limit(s, at)
  }

  predicate Resolved(s: Script) {
    forall at <- s.slots :: Resolves(s, at)
  }

  /** What a slot is filled with: the offset of its label, little-endian. */
  function Word(s: Script, at: nat): (w: Bytes)
    requires at in s.slots
    ensures |w| == 2
  {
    var target := Target(s, at);
    LE(2, if target.Some? then target.value else 0)
  }

  /** Byte `i` once the slots in `done` are filled. */
  function Filled(s: Script, done: set<nat>, i: nat): Byte
    requires i < |s.bytes| && done <= s.slots.Keys
  {
    if i in done then Word(s, i)[0] else if i >= 1 && i - 1 in done then Word(s, i - 1)[1] else s.bytes[i]
  }

  function FilledAll(s: Script, done: set<nat>): (r: Bytes)
    requires done <= s.slots.Keys
    ensures |r| == |s.bytes|
  {
    seq(|s.bytes|, i requires 0 <= i < |s.bytes| => Filled(s, done, i))
  }

  function Linkage(s: Script): Option<Bytes> {
    if Resolved(s) then Some(FilledAll(s, s.slots.Keys)) else None
  }

  lemma SlotHolds(s: Script, at: nat)
    requires Linked(s) && Resolved(s) && at in s.slots
    ensures at + 2 <= |s.bytes| && Unsigned(FilledAll(s, s.slots.Keys)[at..at + 2]) == Target(s, at).value
  {
    var r, target := FilledAll(s, s.slots.Keys), Target(s, at).value;
    assert GoodSlot(s, at);
    WordSizes();
    UnsignedLE(2, target);
    assert r[at] == Word(s, at)[0] && r[at + 1] == Word(s, at)[1];
    assert r[at..at + 2] == LE(2, target);
  }

  lemma LabelHolds(s: Script, name: Bytes)
    requires Linked(s) && name in s.labels
    ensures 1 <= s.labels[name] <= |s.bytes| && FilledAll(s, s.slots.Keys)[s.labels[name] - 1] == NOP
  {
    assert GoodLabel(s, s.labels[name]);
  }

  /**
    A script that is handed out is the emitted code with nothing changed but the slots, and each slot
    holds the little-endian offset of its label, within the range the chain reads, right behind a NOP.
   */
  lemma LinkedScript(s: Script)
    requires Linked(s) && Linkage(s).Some?
    ensures var r := Linkage(s).value;
            |r| == |s.bytes|
            && (forall i :: 0 <= i < |r| && !InSlot(s, i) ==> r[i] == s.bytes[i])
            && forall at <- s.slots ::
                 at + 2 <= |r| && Unsigned(r[at..at + 2]) == Target(s, at).value <= Limit(s, at)
                 && 1 <= Target(s, at).value <= |r| && r[Target(s, at).value - 1] == NOP
  {
    forall at | at in s.slots
      ensures at + 2 <= |s.bytes| && Unsigned(Linkage(s).value[at..at + 2]) == Target(s, at).value <= Limit(s, at)
      ensures 1 <= Target(s, at).value <= |s.bytes| && Linkage(s).value[Target(s, at).value - 1] == NOP
    {
      assert Resolves(s, at);
      SlotHolds(s, at);
      LabelHolds(s, Lower(s.slots[at]));
    }
  }

  // ----- finishing -----

  /** Finishing emits RET, then hands out the latched failure once or links the code. */
  function Finish(s: Script): (Script, Option<Bytes>) {
    var t := Step(s, Raw([RET]));
    if t.failed then (t.(failed := false), None) else (t, Linkage(t))
  }

  // ----- runs with several finishes -----

  datatype Event = Do(op: Op) | End

  function Next(s: Script, e: Event): Script {
    if e.Do? then Step(s, e.op) else Finish(s).0
  }

  /** The builder after a run of operations and finishes. */
  function Play(events: seq<Event>): Script {
    if events == [] then EMPTY else Next(Play(events[..|events| - 1]), events[|events| - 1])
  }

  /** Operation `j` was refused and no finish stands between it and position `e`. */
  predicate Pending(events: seq<Event>, j: int, e: nat) {
    0 <= j < e <= |events| && events[j].Do? && Refuses(events[j].op) && forall k :: j < k < e ==> !events[k].End?
  }

  lemma PlayStep(events: seq<Event>, e: nat)
    requires e < |events|
    ensures Play(events[..e + 1]) == Next(Play(events[..e]), events[e])
  {
    var prefix := events[..e + 1];
    assert prefix[..|prefix| - 1] == events[..e] && prefix[|prefix| - 1] == events[e];
  }

  /** Finishes included, every run keeps slots and labels in order. */
  lemma {:induction false} PlayLinked(events: seq<Event>)
    ensures Linked(Play(events))
  {
    if events != [] {
      var s, last := Play(events[..|events| - 1]), events[|events| - 1];
      PlayLinked(events[..|events| - 1]);
      if last.Do? {
        StepLinked(s, last.op);
      } else {
        StepLinked(s, Raw([RET]));
        Unlatched(Step(s, Raw([RET])));
      }
    }
  }

  lemma Unlatched(s: Script)
    requires Linked(s)
    ensures Linked(s.(failed := false))
  {
    var t := s.(failed := false);
    assert forall i :: InSlot(t, i) == InSlot(s, i);
    forall at | at in t.slots ensures GoodSlot(t, at) {
      assert GoodSlot(s, at);
    }
    forall name | name in t.labels ensures GoodLabel(t, t.labels[name]) {
      assert GoodLabel(s, s.labels[name]);
    }
  }

  /** A failure is latched exactly while a refused operation has seen no finish. */
  lemma {:induction false} LatchedExactlyWhen(events: seq<Event>, e: nat)
    requires e <= |events|
    ensures Play(events[..e]).failed <==> exists j :: Pending(events, j, e)
    decreases e
  {
    if e == 0 {
      assert events[..0] == [];
    } else {
      var was := e - 1;
      LatchedExactlyWhen(events, was);
      PlayStep(events, was);
      PendingStep(events, was, e);
    }
  }

  lemma PendingStep(events: seq<Event>, e: nat, next: nat)
    requires e < |events| && next == e + 1
    ensures (exists j :: Pending(events, j, next)) <==>
              events[e].Do? && (Refuses(events[e].op) || exists j :: Pending(events, j, e))
  {
    if j :| Pending(events, j, next) {
      if j < e {
        assert !events[e].End? && Pending(events, j, e);
      }
    }
    if events[e].Do? && Refuses(events[e].op) {
      assert Pending(events, e, next);
    } else if events[e].Do? {
      if j :| Pending(events, j, e) {
        assert Pending(events, j, next);
      }
    }
  }

  /**
    In every run, a finish answers a latched failure exactly when an operation since the finish before it
    was refused; every other finish links the code as it stands, failed finishes' RETs included.
   */
  lemma FinishAnswers(events: seq<Event>, e: nat)
    requires e < |events| && events[e].End?
    ensures var s := Play(events[..e]);
            Finish(s).1 == if exists j :: Pending(events, j, e) then None else Linkage(Step(s, Raw([RET])))
    ensures !Play(events[..e + 1]).failed && Play(events[..e + 1]).bytes == Play(events[..e]).bytes + [RET]
  {
    LatchedExactlyWhen(events, e);
    PlayStep(events, e);
  }

  function Defined(ops: seq<Op>): set<Bytes> {
    set op <- ops | op.Label? :: Lower(op.name)
  }

  function Referenced(ops: seq<Op>): set<Bytes> {
    set op <- ops | (op.Jump? || op.Call?) && !Refuses(op) :: op.name
  }

  lemma {:induction false} RunFailed(s: Script, ops: seq<Op>)
    ensures Run(s, ops).failed <==> s.failed || exists op <- ops :: Refuses(op)
    decreases ops
  {
    if ops != [] {
      RunFailed(Step(s, ops[0]), ops[1..]);
    }
  }

  lemma {:induction false} RunLabels(s: Script, ops: seq<Op>)
    ensures Run(s, ops).labels.Keys == s.labels.Keys + Defined(ops)
    decreases ops
  {
    if ops != [] {
      RunLabels(Step(s, ops[0]), ops[1..]);
      assert Step(s, ops[0]).labels.Keys == s.labels.Keys + Defined([ops[0]]);
      assert ops == [ops[0]] + ops[1..];
    }
  }

  lemma StepNames(s: Script, op: Op)
    requires Linked(s)
    ensures Step(s, op).slots.Values == s.slots.Values + Referenced([op])
  {
    if (op.Jump? || op.Call?) && !Refuses(op) {
      SlotsBelow(s);
      var at := |s.bytes| + |Head(op)|;
      assert at in s.slots ==> InSlot(s, at);
      Updated(s.slots, at, op.name);
    }
  }

  lemma Updated(m: map<nat, Bytes>, k: nat, v: Bytes)
    requires k !in m
    ensures m[k := v].Values == m.Values + {v}
  {
    assert m[k := v][k] == v;
    forall x | x in m.Values ensures x in m[k := v].Values {
      var j :| j in m && m[j] == x;
      assert m[k := v][j] == x;
    }
  }

  lemma {:induction false} RunNames(s: Script, ops: seq<Op>)
    requires Linked(s)
    ensures Run(s, ops).slots.Values == s.slots.Values + Referenced(ops)
    decreases ops
  {
    if ops != [] {
      StepLinked(s, ops[0]);
      StepNames(s, ops[0]);
      RunNames(Step(s, ops[0]), ops[1..]);
      assert ops == [ops[0]] + ops[1..];
    }
  }

  predicate InRange(s: Script) {
    forall at <- s.slots :: Target(s, at).Some? ==> Target(s, at).value <= Limit(s, at)
  }

  /**
    A run of builder operations can be finished exactly when none of them was refused, every name it
    jumps to or calls is a label it defines, whatever the letter case, and no target is out of range.
   */
  lemma FinishesExactlyWhen(ops: seq<Op>)
    ensures Finish(Run(EMPTY, ops)).1.Some? <==>
              && (forall op <- ops :: !Refuses(op))
              && (forall name <- Referenced(ops) :: Lower(name) in Defined(ops))
              && InRange(Run(EMPTY, ops))
  {
    var s := Run(EMPTY, ops);
    RunFailed(EMPTY, ops);
    RunLabels(EMPTY, ops);
    RunNames(EMPTY, ops);
    assert s.slots.Values == Referenced(ops) && s.labels.Keys == Defined(ops);
    NamesResolve(s);
    FinishResolves(s);
  }

  lemma NamesResolve(s: Script)
    ensures (forall name <- s.slots.Values :: Lower(name) in s.labels) <==> forall at <- s.slots :: Target(s, at).Some?
  {
    forall at | at in s.slots ensures s.slots[at] in s.slots.Values {
    }
  }

  lemma FinishResolves(s: Script)
    ensures Finish(s).1.Some? <==> !s.failed && InRange(s) && forall at <- s.slots :: Target(s, at).Some?
  {
    var t := Step(s, Raw([RET]));
    assert forall at <- s.slots :: Target(t, at) == Target(s, at) && Limit(t, at) == Limit(s, at);
    assert Resolved(t) <==> InRange(s) && forall at <- s.slots :: Target(s, at).Some?;
  }

  // ----- the builder -----

  lemma Least(todo: set<nat>) returns (least: nat)
    requires todo != {}
    ensures least in todo && forall b <- todo :: least <= b
    decreases |todo|
  {
    var any :| any in todo;
    least := any;
    var rest := todo - {any};
    if rest != {} {
      var other := Least(rest);
      least := if other < any then other else any;
    }
    assert forall b <- todo :: b == any || b in rest;
  }

  /** Slots lie inside the code and do not overlap. */
  ghost predicate Spaced(s: Script) {
    forall at <- s.slots :: at + 2 <= |s.bytes| && at + 1 !in s.slots
  }

  lemma LinkedSpaced(s: Script)
    requires Linked(s)
    ensures Spaced(s)
  {
    forall at | at in s.slots ensures at + 2 <= |s.bytes| && at + 1 !in s.slots {
      assert GoodSlot(s, at);
    }
  }

  /** Fills the slots in ascending order. A slot past the end of the code cannot occur. */
  method FillSlots(s: Script) returns (r: Option<Bytes>)
    requires Spaced(s)
    ensures r == Linkage(s)
  {
    var script := s.bytes;
    var todo := s.slots.Keys;
    ghost var done: set<nat> := {};
    NoneFilled(s);
    while todo != {}
      invariant done + todo == s.slots.Keys && done !! todo
      invariant forall at <- done :: Resolves(s, at)
      invariant script == FilledAll(s, done)
      decreases |todo|
    {
      ghost var least := Least(todo);
      var offset :| offset in todo && forall b <- todo :: offset <= b;
      Fills(s, done, offset);
      var patched := Patch(s, script, offset);
      if patched.None? {
        return None;
      }
      script := patched.value;
      done, todo := done + {offset}, todo - {offset};
    }
    assert done == s.slots.Keys;
    return Some(script);
  }

  /** Fills one slot, or finds its label missing or too far. */
  method Patch(s: Script, script: Bytes, offset: nat) returns (r: Option<Bytes>)
    requires offset in s.slots && offset + 2 <= |script|
    ensures r.Some? <==> Resolves(s, offset)
    ensures r.Some? ==> r.value == script[offset := Word(s, offset)[0]][offset + 1 := Word(s, offset)[1]]
  {
    var key := Lower(s.slots[offset]);
    if key !in s.labels {
      return None;
    }
    var target := s.labels[key];
    if target > (if offset in s.calls then MAX_CALL_TARGET else MAX_JUMP_TARGET) {
      return None;
    }
    return Some(script[offset := LE(2, target)[0]][offset + 1 := LE(2, target)[1]]);
  }

  class ScriptBuilder {
    var buffer: Bytes
    var jumpLocations: map<nat, Bytes>
    var labelLocations: map<Bytes, nat>
    var callOffsets: set<nat>
    var error: bool

    function State(): Script
      reads this
    {
      Script(buffer, jumpLocations, labelLocations, callOffsets, error)
    }

    ghost predicate Valid()
      reads this
    {
      Linked(State())
    }

    constructor ()
      ensures State() == EMPTY && Valid()
    {
      buffer, jumpLocations, labelLocations, callOffsets, error := [], map[], map[], {}, false;
    }

    method EmitRaw(data: Bytes)
      requires Valid()
      modifies this
      ensures Valid() && State() == Step(old(State()), Raw(data))
    {
      StepLinked(State(), Raw(data));
      buffer := buffer + data;
    }

    /** Latches a failure; the code is left as it is. */
    method Refuse()
      requires Valid()
      modifies this
      ensures Valid() && State() == Step(old(State()), Fail)
    {
      ghost var s := State();
      error := true;
      StepLinked(s, Fail);
    }

    method EmitLoad(reg: Byte, data: Bytes, vmType: Byte)
      requires Valid()
      modifies this
      ensures Valid() && State() == Step(old(State()), Load(reg, data, vmType))
    {
      ghost var s := State();
      if |data| > MAX_LOAD {
        error := true;
      } else {
        buffer := buffer + [LOAD];
        buffer := buffer + [reg];
        buffer := buffer + [vmType];
        buffer := buffer + EncodeVarUInt(|data|);
        buffer := buffer + data;
        assert buffer == s.bytes + LoadBytes(reg, data, vmType);
      }
      assert State() == Step(s, Load(reg, data, vmType));
      StepLinked(s, Load(reg, data, vmType));
    }

    method EmitLabel(name: Bytes)
      requires Valid()
      modifies this
      ensures Valid() && State() == Step(old(State()), Label(name))
    {
      ghost var s := State();
      buffer := buffer + [NOP];
      labelLocations := labelLocations[Lower(name) := |buffer|];
      assert State() == Step(s, Label(name));
      StepLinked(s, Label(name));
    }

    method EmitJump(opcode: Byte, name: Bytes, reg: Byte)
      requires Valid()
      modifies this
      ensures Valid() && State() == Step(old(State()), Jump(opcode, name, reg))
    {
      ghost var s := State();
      if opcode != JMP && opcode != JMP_IF && opcode != JMP_NOT {
        error := true;
      } else {
        buffer := buffer + [opcode];
        if opcode != JMP {
          buffer := buffer + [reg];
        }
        assert State() == s.(bytes := s.bytes + Head(Jump(opcode, name, reg)));
        ReserveSlot(name, false);
        ReserveBehind(s, Head(Jump(opcode, name, reg)), name, false);
      }
      assert State() == Step(s, Jump(opcode, name, reg));
      StepLinked(s, Jump(opcode, name, reg));
    }

    method EmitCall(name: Bytes, registers: Byte)
      requires Valid()
      modifies this
      ensures Valid() && State() == Step(old(State()), Call(name, registers))
    {
      ghost var s := State();
      if registers == 0 || registers > MAX_REGISTER_COUNT {
        error := true;
      } else {
        buffer := buffer + [CALL];
        buffer := buffer + [registers];
        assert State() == s.(bytes := s.bytes + Head(Call(name, registers)));
        ReserveSlot(name, true);
        ReserveBehind(s, Head(Call(name, registers)), name, true);
      }
      assert State() == Step(s, Call(name, registers));
      StepLinked(s, Call(name, registers));
    }

    /** Leaves two zero bytes to be filled in, and remembers for which label. */
    method ReserveSlot(name: Bytes, call: bool)
      modifies this
      ensures State() == Reserve(old(State()), [], name, call)
    {
      var offset := |buffer|;
      assert buffer + [] == buffer;
      buffer := buffer + [0, 0];
      jumpLocations := jumpLocations[offset := name];
      if call {
        callOffsets := callOffsets + {offset};
      }
    }

    method ToScript() returns (r: Option<Bytes>)
      requires Valid()
      ensures r == Linkage(State())
    {
      LinkedSpaced(State());
      r := FillSlots(State());
    }

    method EndScript() returns (r: Option<Bytes>)
      requires Valid()
      modifies this
      ensures Valid() && (State(), r) == Finish(old(State()))
    {
      EmitRaw([RET]);
      if error {
        ghost var s := State();
        error := false;
        Appends(s.(failed := false), State(), []);
        return None;
      }
      r := ToScript();
    }
  }

  lemma ReserveBehind(s: Script, head: Bytes, name: Bytes, call: bool)
    ensures Reserve(s.(bytes := s.bytes + head), [], name, call) == Reserve(s, head, name, call)
  {
    assert s.bytes + head + [] == s.bytes + head;
  }

  lemma NoneFilled(s: Script)
    ensures FilledAll(s, {}) == s.bytes
  {
  }

  /** Filling one more slot changes its two bytes and no other. */
  lemma Fills(s: Script, done: set<nat>, at: nat)
    requires Spaced(s) && at in s.slots && at !in done && done <= s.slots.Keys
    ensures at + 2 <= |s.bytes|
    ensures FilledAll(s, done + {at}) == FilledAll(s, done)[at := Word(s, at)[0]][at + 1 := Word(s, at)[1]]
  {
  }
}
