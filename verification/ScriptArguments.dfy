/**
  Method arguments compiled for a register machine: nested arrays are built in place, each level one
  register further up, and the arguments are pushed last first.
 */
module ScriptArguments {
  import opened Words
  import opened VmBinary
  import opened VmObjects
  import opened ScriptAssembler

  type Address = s: Bytes | |s| == 34 witness seq(34, i => 0)

  datatype Arg =
    | AddressArg(address: Address)
    | StringArg(text: Text)
    | BoolArg(flag: bool)
    | BytesArg(bytes: Bytes)
    | NumberArg(number: int)
    | TimestampArg(time: U64)
    | ArrayArg(items: seq<Arg>)

  // ----- the compiler -----

  const PUSH: Byte := 3
  const CAST: Byte := 14
  const PUT: Byte := 47

  const NONE_TYPE: Byte := 0
  const BYTES_TYPE: Byte := 2
  const NUMBER_TYPE: Byte := 3
  const STRING_TYPE: Byte := 4
  const TIMESTAMP_TYPE: Byte := 5
  const BOOL_TYPE: Byte := 6

  function LeafOp(reg: Byte, a: Arg): Op
    requires !a.ArrayArg?
  {
    match a
    case AddressArg(b) => Load(reg, EncodeVarBytes(b), BYTES_TYPE)
    case StringArg(t) => Load(reg, t, STRING_TYPE)
    case BoolArg(b) => Load(reg, [if b then 1 else 0], BOOL_TYPE)
    case BytesArg(b) => Load(reg, b, BYTES_TYPE)
    case NumberArg(n) => Load(reg, CsharpBytes(n), NUMBER_TYPE)
    case TimestampArg(t) => if t < 0x1_0000_0000 then Load(reg, LE(4, t), TIMESTAMP_TYPE) else Fail
  }

  const TOP: nat := 29

  /** The builder operations that load an argument into a register. */
  function LoadOps(reg: Byte, a: Arg): seq<Op>
    requires reg < MAX_REGISTER_COUNT
    decreases a, 0
  {
    if !a.ArrayArg? then [LeafOp(reg, a)]
    else if reg > TOP then [Fail]
    else [Raw([CAST, reg, reg, NONE_TYPE])] + ItemOps(reg, a.items, 0)
  }

  function KeyOp(reg: Byte, i: nat): Op {
    Load(reg, CsharpBytes(i), NUMBER_TYPE)
  }

  /** Item `i` on, each loaded one register up, its index two up, then put into the array. */
  function ItemOps(reg: Byte, items: seq<Arg>, i: nat): seq<Op>
    requires reg <= TOP
    decreases items, 1
  {
    if items == [] then [] else
      LoadOps(reg + 1, items[0]) + PutOps(reg, i) + ItemOps(reg, items[1..], i + 1)
  }

  function PutOps(reg: Byte, i: nat): seq<Op>
    requires reg <= TOP
  {
    [KeyOp(reg + 2, i), Raw([PUT, reg + 1, reg, reg + 2])]
  }

  // ----- when it fails -----

  predicate AnyRefused(ops: seq<Op>) {
    exists op <- ops :: Refuses(op)
  }

  /** How many arrays are nested in one another. */
  function Nesting(a: Arg): nat
    decreases a, 0
  {
    if a.ArrayArg? then 1 + Deepest(a.items) else 0
  }

  function Deepest(items: seq<Arg>): nat
    decreases items, 1
  {
    if items == [] then 0 else
      var first, rest := Nesting(items[0]), Deepest(items[1..]);
      if first > rest then first else rest
  }

  /** Some load, of a value or of an index, is too long or out of range. */
  predicate BadLoad(a: Arg)
    decreases a, 0
  {
    match a
    case ArrayArg(items) => BadItem(items, 0)
    case TimestampArg(t) => t >= 0x1_0000_0000
    case StringArg(t) => |t| > MAX_LOAD
    case BytesArg(b) => |b| > MAX_LOAD
    case NumberArg(n) => |CsharpBytes(n)| > MAX_LOAD
    case _ => false
  }

  predicate BadItem(items: seq<Arg>, i: nat)
    decreases items, 1
  {
    items != [] && (BadLoad(items[0]) || |CsharpBytes(i)| > MAX_LOAD || BadItem(items[1..], i + 1))
  }

  predicate Fits(reg: Byte, a: Arg) {
    (Nesting(a) > 0 ==> reg + Nesting(a) <= TOP + 1) && !BadLoad(a)
  }

  lemma RefusedConcat(a: seq<Op>, b: seq<Op>)
    ensures AnyRefused(a + b) <==> AnyRefused(a) || AnyRefused(b)
  {
    assert forall op :: op in a + b <==> op in a || op in b;
  }

  lemma LeafRefused(reg: Byte, a: Arg)
    requires !a.ArrayArg?
    ensures Refuses(LeafOp(reg, a)) <==> BadLoad(a)
  {
  }

  /** Loading fails exactly when arrays nest past the registers or some load is too long or out of range. */
  lemma {:induction false} LoadFailsExactlyWhen(reg: Byte, a: Arg)
    requires reg < MAX_REGISTER_COUNT
    ensures AnyRefused(LoadOps(reg, a)) <==> !Fits(reg, a)
    decreases a, 0
  {
    if !a.ArrayArg? {
      LeafRefused(reg, a);
      assert LeafOp(reg, a) in LoadOps(reg, a);
    } else if reg > TOP {
      assert Fail in LoadOps(reg, a);
    } else {
      var cast := [Raw([CAST, reg, reg, NONE_TYPE])];
      assert !AnyRefused(cast);
      RefusedConcat(cast, ItemOps(reg, a.items, 0));
      ItemsFailExactlyWhen(reg, a.items, 0);
    }
  }

  lemma {:induction false} ItemsFailExactlyWhen(reg: Byte, items: seq<Arg>, i: nat)
    requires reg <= TOP
    ensures AnyRefused(ItemOps(reg, items, i)) <==>
              (Deepest(items) > 0 && reg + 1 + Deepest(items) > TOP + 1) || BadItem(items, i)
    decreases items, 1
  {
    if items != [] {
      var load, put := LoadOps(reg + 1, items[0]), PutOps(reg, i);
      LoadFailsExactlyWhen(reg + 1, items[0]);
      ItemsFailExactlyWhen(reg, items[1..], i + 1);
      RefusedConcat(load, put);
      RefusedConcat(load + put, ItemOps(reg, items[1..], i + 1));
      assert put[0] in put && put[1] in put;
      assert AnyRefused(put) <==> |CsharpBytes(i)| > MAX_LOAD;
    }
  }

  /** From register 0: at most thirty nested arrays, and no bad load. */
  lemma ArgumentFailsExactlyWhen(a: Arg)
    ensures AnyRefused(LoadOps(0, a)) <==> Nesting(a) > 30 || BadLoad(a)
  {
    LoadFailsExactlyWhen(0, a);
  }

  // ----- the code -----

  /** The bytes of an accepted operation without labels. */
  function CodeOfOp(op: Op): Bytes {
    match op
    case Raw(data) => data
    case Load(reg, data, vmType) => if Refuses(op) then [] else LoadBytes(reg, data, vmType)
    case _ => []
  }

  function CodeOf(ops: seq<Op>): Bytes {
    if ops == [] then [] else CodeOfOp(ops[0]) + CodeOf(ops[1..])
  }

  predicate Straight(ops: seq<Op>) {
    forall op <- ops :: op.Raw? || op.Load? || op.Fail?
  }

  lemma {:induction false} CodeConcat(a: seq<Op>, b: seq<Op>)
    ensures CodeOf(a + b) == CodeOf(a) + CodeOf(b)
  {
    if a == [] {
      assert a + b == b;
    } else {
      assert (a + b)[1..] == a[1..] + b;
      CodeConcat(a[1..], b);
      assert CodeOfOp(a[0]) + (CodeOf(a[1..]) + CodeOf(b)) == CodeOfOp(a[0]) + CodeOf(a[1..]) + CodeOf(b);
    }
  }

  function Appended(s: Script, code: Bytes, failed: bool): Script {
    s.(bytes := s.bytes + code, failed := s.failed || failed)
  }

  lemma StepCode(s: Script, op: Op)
    requires op.Raw? || op.Load? || op.Fail?
    ensures Step(s, op) == Appended(s, CodeOfOp(op), Refuses(op))
  {
    assert s.bytes + [] == s.bytes;
  }

  lemma AppendedTwice(s: Script, a: Bytes, b: Bytes, p: bool, q: bool)
    ensures Appended(Appended(s, a, p), b, q) == Appended(s, a + b, p || q)
  {
    assert s.bytes + a + b == s.bytes + (a + b);
  }

  lemma RefusedCons(ops: seq<Op>)
    requires ops != []
    ensures AnyRefused(ops) <==> Refuses(ops[0]) || AnyRefused(ops[1..])
  {
    assert ops == [ops[0]] + ops[1..];
    assert forall op :: op in ops <==> op == ops[0] || op in ops[1..];
  }

  /** Operations without labels only append their code. */
  lemma {:induction false} RunCode(s: Script, ops: seq<Op>)
    requires Straight(ops)
    ensures Run(s, ops) == Appended(s, CodeOf(ops), AnyRefused(ops))
    decreases ops
  {
    if ops == [] {
      assert s.bytes + [] == s.bytes;
    } else {
      assert ops[0] in ops;
      StepCode(s, ops[0]);
      RunCode(Step(s, ops[0]), ops[1..]);
      RefusedCons(ops);
      AppendedTwice(s, CodeOfOp(ops[0]), CodeOf(ops[1..]), Refuses(ops[0]), AnyRefused(ops[1..]));
    }
  }

  // ----- a register machine -----

  datatype Machine = Machine(regs: seq<VMObject>, stack: seq<VMObject>)

  function Interpret(vmType: Byte, raw: Bytes): Option<VMObject> {
    if vmType == BYTES_TYPE then Some(BytesObject(raw))
    else if vmType == NUMBER_TYPE then Some(NumberObject(Signed(raw)))
    else if vmType == STRING_TYPE && ValidUtf8(raw) then Some(StringObject(raw))
    else if vmType == TIMESTAMP_TYPE && |raw| == 4 then WordSizes(); Some(TimestampObject(Unsigned(raw)))
    else if vmType == BOOL_TYPE && |raw| == 1 then Some(BoolObject(raw[0] != 0))
    else None
  }

  function PutIn(items: seq<Item>, key: VMObject, value: VMObject): seq<Item> {
    if items == [] then [Item(key, value)]
    else if items[0].key == key then [Item(key, value)] + items[1..]
    else [items[0]] + PutIn(items[1..], key, value)
  }

  function PutInto(container: VMObject, key: VMObject, value: VMObject): Option<VMObject> {
    match container
    case NoObject => Some(StructObject([Item(key, value)]))
    case StructObject(items) => Some(StructObject(PutIn(items, key, value)))
    case _ => None
  }

  function ExecLoad(code: Bytes, m: Machine): (r: Option<(Machine, Bytes)>)
    ensures r.Some? ==> |r.value.1| < |code|
  {
    if |code| < 3 || code[1] >= |m.regs| then None else
      var d := DecodeVarUInt(code[3..]);
      if d.Refused? || Take(d.value, d.rest).Refused? then None else
        var t := Take(d.value, d.rest);
        var v :- Interpret(code[2], t.value);
        Some((m.(regs := m.regs[code[1] := v]), t.rest))
  }

  /** One instruction: LOAD reg type data, CAST source target type, PUT value container key, PUSH reg. */
  function Exec1(code: Bytes, m: Machine): (r: Option<(Machine, Bytes)>)
    requires code != []
    ensures r.Some? ==> |r.value.1| < |code|
  {
    if code[0] == LOAD then ExecLoad(code, m)
    else if code[0] == CAST then
      if |code| < 4 || code[1] >= |m.regs| || code[2] >= |m.regs| || code[3] != NONE_TYPE then None
      else Some((m.(regs := m.regs[code[2] := NoObject]), code[4..]))
    else if code[0] == PUT then
      if |code| < 4 || code[1] >= |m.regs| || code[2] >= |m.regs| || code[3] >= |m.regs| then None else
        var v :- PutInto(m.regs[code[2]], m.regs[code[3]], m.regs[code[1]]);
        Some((m.(regs := m.regs[code[2] := v]), code[4..]))
    else if code[0] == PUSH then
      if |code| < 2 || code[1] >= |m.regs| then None
      else Some((m.(stack := m.stack + [m.regs[code[1]]]), code[2..]))
    else None
  }

  function Exec(code: Bytes, m: Machine): Option<Machine>
    decreases |code|
  {
    if code == [] then Some(m) else
      var next :- Exec1(code, m);
      Exec(next.1, next.0)
  }

  /** Run on `m`, the code leads to `n`, whatever code follows it. */
  ghost predicate Leads(exec: (Bytes, Machine) -> Option<Machine>, code: Bytes, m: Machine, n: Machine) {
    forall rest: Bytes :: exec(code + rest, m) == exec(rest, n)
  }

  ghost predicate Runs(code: Bytes, m: Machine, n: Machine) {
    Leads(Exec, code, m, n)
  }

  lemma LeadsThen(exec: (Bytes, Machine) -> Option<Machine>, a: Bytes, b: Bytes, m: Machine, k: Machine, n: Machine)
    requires Leads(exec, a, m, k) && Leads(exec, b, k, n)
    ensures Leads(exec, a + b, m, n)
  {
    forall rest: Bytes ensures exec(a + b + rest, m) == exec(rest, n) {
      assert a + b + rest == a + (b + rest);
    }
  }

  lemma RunsThen(a: Bytes, b: Bytes, m: Machine, k: Machine, n: Machine)
    requires Runs(a, m, k) && Runs(b, k, n)
    ensures Runs(a + b, m, n)
  {
    LeadsThen(Exec, a, b, m, k, n);
  }

  lemma RunsNothing(m: Machine)
    ensures Runs([], m, m)
  {
    forall rest: Bytes ensures Exec([] + rest, m) == Exec(rest, m) {
      assert [] + rest == rest;
    }
  }

  lemma RunsLoad(reg: Byte, data: Bytes, vmType: Byte, v: VMObject, m: Machine)
    requires reg < |m.regs| && |data| <= MAX_LOAD && Interpret(vmType, data) == Some(v)
    ensures Runs(LoadBytes(reg, data, vmType), m, m.(regs := m.regs[reg := v]))
  {
    forall rest: Bytes ensures Exec(LoadBytes(reg, data, vmType) + rest, m) == Exec(rest, m.(regs := m.regs[reg := v])) {
      ExecutesLoad(reg, data, vmType, v, rest, m);
    }
  }

  lemma ExecutesLoad(reg: Byte, data: Bytes, vmType: Byte, v: VMObject, rest: Bytes, m: Machine)
    requires reg < |m.regs| && |data| <= MAX_LOAD && Interpret(vmType, data) == Some(v)
    ensures Exec(LoadBytes(reg, data, vmType) + rest, m) == Exec(rest, m.(regs := m.regs[reg := v]))
  {
    var size := EncodeVarUInt(|data|);
    var code := LoadBytes(reg, data, vmType) + rest;
    assert code == [LOAD, reg, vmType] + (size + (data + rest));
    assert code[3..] == size + (data + rest);
    VarUIntBack(|data|, data + rest);
    TakeBack(data, rest);
  }

  lemma RunsCast(reg: Byte, m: Machine)
    requires reg < |m.regs|
    ensures Runs([CAST, reg, reg, NONE_TYPE], m, m.(regs := m.regs[reg := NoObject]))
  {
    forall rest: Bytes ensures Exec([CAST, reg, reg, NONE_TYPE] + rest, m) == Exec(rest, m.(regs := m.regs[reg := NoObject])) {
      var code := [CAST, reg, reg, NONE_TYPE] + rest;
      assert code[4..] == rest;
    }
  }

  lemma RunsPut(src: Byte, dst: Byte, key: Byte, v: VMObject, m: Machine)
    requires src < |m.regs| && dst < |m.regs| && key < |m.regs|
    requires PutInto(m.regs[dst], m.regs[key], m.regs[src]) == Some(v)
    ensures Runs([PUT, src, dst, key], m, m.(regs := m.regs[dst := v]))
  {
    forall rest: Bytes ensures Exec([PUT, src, dst, key] + rest, m) == Exec(rest, m.(regs := m.regs[dst := v])) {
      var code := [PUT, src, dst, key] + rest;
      assert code[4..] == rest;
    }
  }

  lemma RunsPush(reg: Byte, m: Machine)
    requires reg < |m.regs|
    ensures Runs([PUSH, reg], m, m.(stack := m.stack + [m.regs[reg]]))
  {
    forall rest: Bytes ensures Exec([PUSH, reg] + rest, m) == Exec(rest, m.(stack := m.stack + [m.regs[reg]])) {
      var code := [PUSH, reg] + rest;
      assert code[2..] == rest;
    }
  }

  // ----- what the code leaves behind -----

  function Denote(a: Arg): VMObject
    decreases a, 0
  {
    match a
    case AddressArg(b) => BytesObject(EncodeVarBytes(b))
    case StringArg(t) => StringObject(t)
    case BoolArg(b) => BoolObject(b)
    case BytesArg(b) => BytesObject(b)
    case NumberArg(n) => NumberObject(n)
    case TimestampArg(t) => TimestampObject(if t < 0x1_0000_0000 then t else 0)
    case ArrayArg(items) => Container(Entries(items, 0))
  }

  /** An array nothing was put into is still the empty object it was cast to. */
  function Container(items: seq<Item>): VMObject {
    if items == [] then NoObject else StructObject(items)
  }

  /** Index `i` on: each index paired with its item. */
  function Entries(items: seq<Arg>, i: nat): (r: seq<Item>)
    ensures |r| == |items|
    decreases items, 1
  {
    if items == [] then [] else [Item(NumberObject(i), Denote(items[0]))] + Entries(items[1..], i + 1)
  }

  lemma {:induction false} EntryAt(items: seq<Arg>, i: nat, k: nat)
    requires k < |items|
    ensures Entries(items, i)[k] == Item(NumberObject(i + k), Denote(items[k]))
  {
    if k > 0 {
      EntryAt(items[1..], i + 1, k - 1);
    }
  }

  function Lookup(items: seq<Item>, key: VMObject): Option<VMObject> {
    if items == [] then None else if items[0].key == key then Some(items[0].value) else Lookup(items[1..], key)
  }

  /** In the array an argument denotes, index `k` is mapped to item `k`. */
  lemma {:induction false} IndexHoldsItem(items: seq<Arg>, i: nat, k: nat)
    requires i <= k < i + |items|
    ensures Lookup(Entries(items, i), NumberObject(k)) == Some(Denote(items[k - i]))
  {
    if k > i {
      IndexHoldsItem(items[1..], i + 1, k);
      assert Entries(items, i)[1..] == Entries(items[1..], i + 1);
    }
  }

  predicate KeysBelow(items: seq<Item>, i: nat) {
    forall x <- items :: x.key.NumberObject? && x.key.number < i
  }

  lemma {:induction false} PutNew(items: seq<Item>, i: nat, v: VMObject)
    requires KeysBelow(items, i)
    ensures PutIn(items, NumberObject(i), v) == items + [Item(NumberObject(i), v)]
  {
    if items == [] {
      assert items + [Item(NumberObject(i), v)] == [Item(NumberObject(i), v)];
    } else {
      assert items[0] in items;
      PutNew(items[1..], i, v);
      assert items == [items[0]] + items[1..];
    }
  }

  lemma PutNext(done: seq<Item>, i: nat, v: VMObject)
    requires KeysBelow(done, i)
    ensures PutInto(Container(done), NumberObject(i), v) == Some(Container(done + [Item(NumberObject(i), v)]))
    ensures KeysBelow(done + [Item(NumberObject(i), v)], i + 1)
  {
    PutNew(done, i, v);
    if done == [] {
      assert done + [Item(NumberObject(i), v)] == [Item(NumberObject(i), v)];
    }
  }

  /** `n` holds the value in `reg`; nothing below `reg`, nor the stack, has changed. */
  predicate Loaded(m: Machine, n: Machine, reg: nat, v: VMObject) {
    |m.regs| == |n.regs| == MAX_REGISTER_COUNT as int && reg < |n.regs| && n.regs[reg] == v
    && n.stack == m.stack && n.regs[..reg] == m.regs[..reg]
  }

  lemma LeafInterprets(a: Arg)
    requires !a.ArrayArg? && !Refuses(LeafOp(0, a))
    ensures var op := LeafOp(0, a); op.Load? && Interpret(op.vmType, op.data) == Some(Denote(a))
  {
    WordSizes();
    match a {
      case NumberArg(n) => CsharpBack(n);
      case TimestampArg(t) => UnsignedLE(4, t);
      case _ =>
    }
  }

  lemma CodeOfOne(op: Op)
    ensures CodeOf([op]) == CodeOfOp(op)
  {
    assert [op][1..] == [] && CodeOfOp(op) + [] == CodeOfOp(op);
  }

  lemma LeafRuns(reg: Byte, a: Arg, m: Machine) returns (n: Machine)
    requires !a.ArrayArg? && reg < MAX_REGISTER_COUNT && |m.regs| == MAX_REGISTER_COUNT as int
    requires !AnyRefused(LoadOps(reg, a))
    ensures Runs(CodeOf(LoadOps(reg, a)), m, n) && Loaded(m, n, reg, Denote(a))
  {
    var op := LeafOp(reg, a);
    assert op in LoadOps(reg, a);
    LeafInterprets(a);
    assert op == Load(reg, LeafOp(0, a).data, LeafOp(0, a).vmType);
    CodeOfOne(op);
    RunsLoad(reg, op.data, op.vmType, Denote(a), m);
    n := m.(regs := m.regs[reg := Denote(a)]);
  }

  /**
    The code that loads an argument, run on a machine with 32 registers, leaves the argument's value in
    its register, writes no register below it, and leaves the stack alone.
   */
  lemma {:induction false} LoadRuns(reg: Byte, a: Arg, m: Machine) returns (n: Machine)
    requires reg < MAX_REGISTER_COUNT && |m.regs| == MAX_REGISTER_COUNT as int
    requires !AnyRefused(LoadOps(reg, a))
    ensures Runs(CodeOf(LoadOps(reg, a)), m, n) && Loaded(m, n, reg, Denote(a))
    decreases a, 1
  {
    if a.ArrayArg? {
      ArrayRoom(reg, a);
      n := ArrayRuns(reg, a, m);
    } else {
      n := LeafRuns(reg, a, m);
    }
  }

  lemma ArrayRoom(reg: Byte, a: Arg)
    requires a.ArrayArg? && reg < MAX_REGISTER_COUNT && !AnyRefused(LoadOps(reg, a))
    ensures reg <= TOP
  {
    LoadFailsExactlyWhen(reg, a);
  }

  lemma {:induction false} ArrayRuns(reg: Byte, a: Arg, m: Machine) returns (n: Machine)
    requires a.ArrayArg? && reg <= TOP && |m.regs| == MAX_REGISTER_COUNT as int
    requires !AnyRefused(LoadOps(reg, a))
    ensures Runs(CodeOf(LoadOps(reg, a)), m, n) && Loaded(m, n, reg, Denote(a))
    decreases a, 0
  {
    var cast, items := Raw([CAST, reg, reg, NONE_TYPE]), ItemOps(reg, a.items, 0);
    RefusedConcat([cast], items);
    CodeConcat([cast], items);
    CodeOfOne(cast);
    RunsCast(reg, m);
    var k := m.(regs := m.regs[reg := NoObject]);
    n := ItemsRun(reg, a.items, 0, [], k);
    RunsThen([CAST, reg, reg, NONE_TYPE], CodeOf(items), m, k, n);
    assert [] + Entries(a.items, 0) == Entries(a.items, 0);
    assert k.regs[..reg] == m.regs[..reg];
  }

  lemma {:induction false} ItemsRun(reg: Byte, items: seq<Arg>, i: nat, done: seq<Item>, m: Machine)
    returns (n: Machine)
    requires reg <= TOP && |m.regs| == MAX_REGISTER_COUNT as int && m.regs[reg] == Container(done) && KeysBelow(done, i)
    requires !AnyRefused(ItemOps(reg, items, i))
    ensures Runs(CodeOf(ItemOps(reg, items, i)), m, n)
    ensures Loaded(m, n, reg, Container(done + Entries(items, i)))
    decreases items, 2
  {
    if items == [] {
      n := m;
      RunsNothing(m);
      assert done + [] == done;
    } else {
      var load, put, more := LoadOps(reg + 1, items[0]), PutOps(reg, i), ItemOps(reg, items[1..], i + 1);
      var entry := Item(NumberObject(i), Denote(items[0]));
      SplitItem(load, put, more);
      var k := ItemRuns(reg, items[0], i, done, m);
      n := ItemsRun(reg, items[1..], i + 1, done + [entry], k);
      RunsThen(CodeOf(load) + CodeOf(put), CodeOf(more), m, k, n);
      OneMore(done, entry, Entries(items[1..], i + 1));
    }
  }

  lemma OneMore(done: seq<Item>, entry: Item, rest: seq<Item>)
    ensures done + ([entry] + rest) == done + [entry] + rest
  {
  }

  lemma {:induction false} ItemRuns(reg: Byte, item: Arg, i: nat, done: seq<Item>, m: Machine) returns (n: Machine)
    requires reg <= TOP && |m.regs| == MAX_REGISTER_COUNT as int && m.regs[reg] == Container(done) && KeysBelow(done, i)
    requires !AnyRefused(LoadOps(reg + 1, item)) && !AnyRefused(PutOps(reg, i))
    ensures Runs(CodeOf(LoadOps(reg + 1, item)) + CodeOf(PutOps(reg, i)), m, n)
    ensures Loaded(m, n, reg, Container(done + [Item(NumberObject(i), Denote(item))]))
    ensures KeysBelow(done + [Item(NumberObject(i), Denote(item))], i + 1)
    decreases item, 2
  {
    var k := LoadRuns(reg + 1, item, m);
    KeptBelow(m, k, reg);
    n := PutRuns(reg, i, done, Denote(item), k);
    RunsThen(CodeOf(LoadOps(reg + 1, item)), CodeOf(PutOps(reg, i)), m, k, n);
  }

  lemma SplitItem(load: seq<Op>, put: seq<Op>, more: seq<Op>)
    ensures AnyRefused(load + put + more) <==> AnyRefused(load) || AnyRefused(put) || AnyRefused(more)
    ensures CodeOf(load + put + more) == CodeOf(load) + CodeOf(put) + CodeOf(more)
  {
    RefusedConcat(load + put, more);
    RefusedConcat(load, put);
    CodeConcat(load + put, more);
    CodeConcat(load, put);
  }

  lemma KeptBelow(m: Machine, n: Machine, reg: nat)
    requires reg + 1 < |m.regs| == |n.regs| && n.regs[..reg + 1] == m.regs[..reg + 1]
    ensures n.regs[reg] == m.regs[reg] && n.regs[..reg] == m.regs[..reg]
  {
    assert n.regs[reg] == n.regs[..reg + 1][reg];
    assert n.regs[..reg] == n.regs[..reg + 1][..reg];
    assert m.regs[..reg] == m.regs[..reg + 1][..reg];
  }

  /** The index is loaded two registers up and the item put under it. */
  lemma PutRuns(reg: Byte, i: nat, done: seq<Item>, v: VMObject, m: Machine) returns (n: Machine)
    requires reg <= TOP && |m.regs| == MAX_REGISTER_COUNT as int && KeysBelow(done, i)
    requires m.regs[reg] == Container(done) && m.regs[reg + 1] == v && !AnyRefused(PutOps(reg, i))
    ensures Runs(CodeOf(PutOps(reg, i)), m, n)
    ensures Loaded(m, n, reg, Container(done + [Item(NumberObject(i), v)]))
    ensures KeysBelow(done + [Item(NumberObject(i), v)], i + 1)
  {
    var key, put := KeyOp(reg + 2, i), Raw([PUT, reg + 1, reg, reg + 2]);
    assert PutOps(reg, i) == [key] + [put] && key in PutOps(reg, i);
    CodeConcat([key], [put]);
    CodeOfOne(key);
    CodeOfOne(put);
    CsharpBack(i);
    RunsLoad(reg + 2, CsharpBytes(i), NUMBER_TYPE, NumberObject(i), m);
    var k := m.(regs := m.regs[reg + 2 := NumberObject(i)]);
    PutNext(done, i, v);
    var container := Container(done + [Item(NumberObject(i), v)]);
    RunsPut(reg + 1, reg, reg + 2, container, k);
    n := k.(regs := k.regs[reg := container]);
    RunsThen(CodeOfOp(key), CodeOfOp(put), m, k, n);
    assert n.regs[..reg] == m.regs[..reg];
  }

  // ----- the arguments of a call -----

  function ArgOps(args: seq<Arg>): seq<Op> {
    if args == [] then [] else ArgOps(args[1..]) + (LoadOps(0, args[0]) + [Raw([PUSH, 0])])
  }

  /** The values pushed, first to last. */
  function Pushed(args: seq<Arg>): (r: seq<VMObject>)
    ensures |r| == |args|
  {
    if args == [] then [] else Pushed(args[1..]) + [Denote(args[0])]
  }

  /** The first argument is on top. */
  lemma {:induction false} PushedAt(args: seq<Arg>, k: nat)
    requires k < |args|
    ensures Pushed(args)[|args| - 1 - k] == Denote(args[k])
  {
    if k > 0 {
      PushedAt(args[1..], k - 1);
    }
  }

  /** Running the code of all arguments pushes their values, the last argument first. */
  lemma {:induction false} ArgsRun(args: seq<Arg>, m: Machine) returns (n: Machine)
    requires |m.regs| == MAX_REGISTER_COUNT as int && !AnyRefused(ArgOps(args))
    ensures Runs(CodeOf(ArgOps(args)), m, n)
    ensures |n.regs| == MAX_REGISTER_COUNT as int && n.stack == m.stack + Pushed(args)
  {
    if args == [] {
      n := m;
      RunsNothing(m);
      assert m.stack + [] == m.stack;
    } else {
      var before, load, push := ArgOps(args[1..]), LoadOps(0, args[0]), [Raw([PUSH, 0])];
      SplitItem(before, load, push);
      Reassociate(before, load, push);
      var k := ArgsRun(args[1..], m);
      n := ArgRuns(args[0], k);
      RunsThen(CodeOf(before), CodeOf(load) + CodeOf(push), m, k, n);
      Reassociate(CodeOf(before), CodeOf(load), CodeOf(push));
      Reassociate(m.stack, Pushed(args[1..]), [Denote(args[0])]);
    }
  }

  lemma Reassociate<T>(a: seq<T>, b: seq<T>, c: seq<T>)
    ensures a + (b + c) == a + b + c
  {
  }

  lemma ArgRuns(a: Arg, m: Machine) returns (n: Machine)
    requires |m.regs| == MAX_REGISTER_COUNT as int && !AnyRefused(LoadOps(0, a))
    ensures Runs(CodeOf(LoadOps(0, a)) + CodeOf([Raw([PUSH, 0])]), m, n)
    ensures |n.regs| == MAX_REGISTER_COUNT as int && n.stack == m.stack + [Denote(a)]
  {
    var k := LoadRuns(0, a, m);
    CodeOfOne(Raw([PUSH, 0]));
    RunsPush(0, k);
    n := k.(stack := k.stack + [k.regs[0]]);
    RunsThen(CodeOf(LoadOps(0, a)), [PUSH, 0], m, k, n);
  }

  // ----- the builder at work -----

  method LoadIntoRegister(b: ScriptBuilder, reg: Byte, a: Arg)
    requires b.Valid() && reg < MAX_REGISTER_COUNT
    modifies b
    ensures b.Valid() && b.State() == Run(old(b.State()), LoadOps(reg, a))
    decreases a, 0
  {
    if a.ArrayArg? {
      LoadArray(b, reg, a.items);
    } else {
      LoadLeaf(b, reg, a);
      RunOne(old(b.State()), LeafOp(reg, a));
    }
  }

  method LoadLeaf(b: ScriptBuilder, reg: Byte, a: Arg)
    requires b.Valid() && !a.ArrayArg?
    modifies b
    ensures b.Valid() && b.State() == Step(old(b.State()), LeafOp(reg, a))
  {
    match a {
      case AddressArg(x) => b.EmitLoad(reg, EncodeVarBytes(x), BYTES_TYPE);
      case StringArg(t) => b.EmitLoad(reg, t, STRING_TYPE);
      case BoolArg(x) => b.EmitLoad(reg, [if x then 1 else 0], BOOL_TYPE);
      case BytesArg(x) => b.EmitLoad(reg, x, BYTES_TYPE);
      case NumberArg(n) => b.EmitLoad(reg, CsharpBytes(n), NUMBER_TYPE);
      case TimestampArg(t) =>
        if t < 0x1_0000_0000 {
          b.EmitLoad(reg, LE(4, t), TIMESTAMP_TYPE);
        } else {
          b.Refuse();
        }
    }
  }

  lemma RunOne(s: Script, op: Op)
    ensures Run(s, [op]) == Step(s, op)
  {
    assert [op][1..] == [];
  }

  method LoadArray(b: ScriptBuilder, reg: Byte, items: seq<Arg>)
    requires b.Valid() && reg < MAX_REGISTER_COUNT
    modifies b
    ensures b.Valid() && b.State() == Run(old(b.State()), LoadOps(reg, ArrayArg(items)))
    decreases items, 3
  {
    ghost var s := b.State();
    if reg > MAX_REGISTER_COUNT - 3 {
      b.Refuse();
      RunOne(s, Fail);
      return;
    }
    b.EmitRaw([CAST, reg, reg, NONE_TYPE]);
    ghost var cast := Raw([CAST, reg, reg, NONE_TYPE]);
    RunOne(s, cast);
    RunConcat(s, [cast], ItemOps(reg, items, 0));
    ghost var goal := Run(s, LoadOps(reg, ArrayArg(items)));
    assert items[0..] == items;
    for i := 0 to |items|
      invariant b.Valid() && Run(b.State(), ItemOps(reg, items[i..], i)) == goal
    {
      assert items[i..][0] == items[i] && items[i..][1..] == items[i + 1..];
      ItemSteps(b.State(), reg, items[i..], i);
      LoadItem(b, reg, items[i], i);
    }
    assert items[|items|..] == [];
  }

  function AfterItem(s: Script, reg: Byte, item: Arg, i: nat): Script
    requires reg <= TOP
  {
    Step(Step(Run(s, LoadOps(reg + 1, item)), KeyOp(reg + 2, i)), Raw([PUT, reg + 1, reg, reg + 2]))
  }

  method LoadItem(b: ScriptBuilder, reg: Byte, item: Arg, i: nat)
    requires b.Valid() && reg <= TOP
    modifies b
    ensures b.Valid() && b.State() == AfterItem(old(b.State()), reg, item, i)
    decreases item, 1
  {
    LoadIntoRegister(b, reg + 1, item);
    b.EmitLoad(reg + 2, CsharpBytes(i), NUMBER_TYPE);
    b.EmitRaw([PUT, reg + 1, reg, reg + 2]);
  }

  lemma ItemSteps(s: Script, reg: Byte, items: seq<Arg>, i: nat)
    requires reg <= TOP && items != []
    ensures Run(s, ItemOps(reg, items, i)) == Run(AfterItem(s, reg, items[0], i), ItemOps(reg, items[1..], i + 1))
  {
    var load, put, more := LoadOps(reg + 1, items[0]), PutOps(reg, i), ItemOps(reg, items[1..], i + 1);
    RunConcat(s, load + put, more);
    RunConcat(s, load, put);
    RunTwo(Run(s, load), KeyOp(reg + 2, i), Raw([PUT, reg + 1, reg, reg + 2]));
  }

  lemma RunTwo(s: Script, p: Op, q: Op)
    ensures Run(s, [p, q]) == Step(Step(s, p), q)
  {
    assert [p, q][1..] == [q];
    RunOne(Step(s, p), q);
  }

  /** Arguments are loaded and pushed from the last to the first. */
  method InsertMethodArgs(b: ScriptBuilder, args: seq<Arg>)
    requires b.Valid()
    modifies b
    ensures b.Valid() && b.State() == Run(old(b.State()), ArgOps(args))
  {
    ghost var s := b.State();
    var i := |args|;
    assert args[i..] == [];
    while i > 0
      invariant 0 <= i <= |args| && b.Valid() && b.State() == Run(s, ArgOps(args[i..]))
    {
      assert args[i - 1..][1..] == args[i..] && args[i - 1..][0] == args[i - 1];
      ghost var k := b.State();
      RunConcat(s, ArgOps(args[i..]), LoadOps(0, args[i - 1]) + [Raw([PUSH, 0])]);
      RunConcat(k, LoadOps(0, args[i - 1]), [Raw([PUSH, 0])]);
      i := i - 1;
      LoadIntoRegister(b, 0, args[i]);
      RunOne(b.State(), Raw([PUSH, 0]));
      b.EmitRaw([PUSH, 0]);
    }
    assert args[0..] == args;
  }
}
