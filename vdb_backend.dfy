/** The VDB backend as the source runs it: emitters that write to an output
    stream one `ld`/`revld` at a time and stop at the first fatal error,
    each proved to write exactly the bytes its layout function gives. */
module VdbBackend {
  import opened Wrappers
  import opened Bytes
  import opened Emit
  import opened Cipher
  import opened Rtlil
  import opened WireRegistry
  import opened VdbLayout

  /** `map_encode(s)`: the length byte, then `maplu` of every character from
      the last to the first; an unmapped character ends the export. */
  method MapEncode(s: string) returns (r: Result<seq<byte>>)
    ensures r == Encode(s)
  {
    var ret: seq<byte> := [|s| % 0x100];
    var i := |s|;
    while i > 0
      invariant 0 <= i <= |s|
      invariant |ret| == 1 + |s| - i && ret[0] == |s| % 0x100
      invariant forall k :: 1 <= k < |ret| ==> s[|s| - k] in GblMap && ret[k] == GblMap[s[|s| - k]]
      invariant forall j :: i <= j < |s| ==> s[j] in GblMap
    {
      i := i - 1;
      var code := Maplu(s[i]);
      match code
      case Err(e) =>
        assert LastUnmapped(s, i);
        return Err(e);
      case Ok(b) =>
        ret := ret + [b];
    }
    assert Mapped(s);
    r := Ok(ret);
    assert ret == Encode(s).value;
  }

  /** `ld(*f, map_encode(s))`. */
  method LdEncoded(f: OutStream, s: string) returns (o: Outcome)
    modifies f
    ensures f.bytes == old(f.bytes) + Id(s).bytes && o == Id(s).outcome
  {
    var e := MapEncode(s);
    match e
    case Ok(b) =>
      f.Ld(b);
      o := Done;
    case Err(err) =>
      o := Fatal(err);
  }

  /** `emit_header(f, top)`. */
  method EmitHeader(f: OutStream, top: string) returns (o: Outcome)
    modifies f
    ensures f.bytes == old(f.bytes) + Header(top).bytes && o == Header(top).outcome
  {
    ghost var f0 := f.bytes;
    f.RevLd(VdbHeader);
    ghost var start := Reversed(VdbHeader);
    f.RevLd(VdbVersion);
    AppendAssoc(f0, start, Reversed(VdbVersion));
    start := start + Reversed(VdbVersion);
    f.Ld(Zeros(4));
    AppendAssoc(f0, start, Zeros(4));
    start := start + Zeros(4);
    f.RevLd(VdbEncrypAlgo);
    AppendAssoc(f0, start, Reversed(VdbEncrypAlgo));
    start := start + Reversed(VdbEncrypAlgo);
    f.RevLd(VdbTimestamp);
    AppendAssoc(f0, start, Reversed(VdbTimestamp));
    start := start + Reversed(VdbTimestamp);
    f.Ld(Idk);
    AppendAssoc(f0, start, Idk);
    start := start + Idk;
    f.Ld(PreambleHeader);
    AppendAssoc(f0, start, PreambleHeader);
    start := start + PreambleHeader;
    assert start == HeaderStart();
    ghost var e := Write(start);
    o := LdEncoded(f, LibraryName);
    ThenAppend(f0, e, Id(LibraryName));
    e := e.Then(Id(LibraryName));
    if o.Fatal? {
      return;
    }
    o := LdEncoded(f, top);
    ThenAppend(f0, e, Id(top));
    e := e.Then(Id(top));
    if o.Fatal? {
      return;
    }
    o := LdEncoded(f, top);
    ThenAppend(f0, e, Id(top));
  }

  /** The first pass of `emit_module_info` for one cell. */
  method EmitTypeEntry(f: OutStream, c: Cell) returns (o: Outcome)
    modifies f
    ensures f.bytes == old(f.bytes) + TypeEntry(c).bytes && o == TypeEntry(c).outcome
  {
    o := Done;
    if c.cellType != ScopeInfo {
      o := LdEncoded(f, c.cellType);
      if o.Done? {
        f.Ld(Zeros(10));
        ThenAppend(old(f.bytes), Id(c.cellType), Write(Zeros(10)));
      }
    }
  }

  /** The second pass of `emit_module_info` for one cell. */
  method EmitScopeEntry(f: OutStream, c: Cell) returns (o: Outcome)
    modifies f
    ensures f.bytes == old(f.bytes) + ScopeEntry(c).bytes && o == ScopeEntry(c).outcome
  {
    o := Done;
    if c.cellType == ScopeInfo {
      o := LdEncoded(f, c.name);
      if o.Done? {
        f.Ld(Zeros(10));
        ThenAppend(old(f.bytes), Id(c.name), Write(Zeros(10)));
      }
    }
  }

  /** The first pass of `emit_module_info`: the types of all cells but the
      `$scopeinfo` ones. */
  method EmitCellTypes(f: OutStream, ms: seq<Module>) returns (o: Outcome)
    modifies f
    ensures f.bytes == old(f.bytes) + ConcatMap(AllCells(ms), TypeEntry).bytes
    ensures o == ConcatMap(AllCells(ms), TypeEntry).outcome
  {
    ghost var all := AllCells(ms);
    ghost var n := 0;
    var i := 0;
    while i < |ms|
      invariant 0 <= i <= |ms|
      invariant n == |AllCells(ms[..i])| && n <= |all|
      invariant ConcatMap(all[..n], TypeEntry).outcome == Done
      invariant f.bytes == old(f.bytes) + ConcatMap(all[..n], TypeEntry).bytes
    {
      var cells := ms[i].cells;
      var j := 0;
      while j < |cells|
        invariant 0 <= j <= |cells|
        invariant n == |AllCells(ms[..i])| + j && n <= |all|
        invariant ConcatMap(all[..n], TypeEntry).outcome == Done
        invariant f.bytes == old(f.bytes) + ConcatMap(all[..n], TypeEntry).bytes
      {
        CellAt(ms, i, j);
        o := EmitTypeEntry(f, cells[j]);
        ConcatMapLoopStep(old(f.bytes), all, n, TypeEntry, f.bytes, o);
        n := n + 1;
        if o.Fatal? {
          return;
        }
        j := j + 1;
      }
      CellsCount(ms, i);
      i := i + 1;
    }
    assert ms[..i] == ms && all[..n] == all;
    o := Done;
  }

  /** The second pass of `emit_module_info`: the names of the `$scopeinfo`
      cells. */
  method EmitScopeNames(f: OutStream, ms: seq<Module>) returns (o: Outcome)
    modifies f
    ensures f.bytes == old(f.bytes) + ConcatMap(AllCells(ms), ScopeEntry).bytes
    ensures o == ConcatMap(AllCells(ms), ScopeEntry).outcome
  {
    ghost var all := AllCells(ms);
    ghost var n := 0;
    var i := 0;
    while i < |ms|
      invariant 0 <= i <= |ms|
      invariant n == |AllCells(ms[..i])| && n <= |all|
      invariant ConcatMap(all[..n], ScopeEntry).outcome == Done
      invariant f.bytes == old(f.bytes) + ConcatMap(all[..n], ScopeEntry).bytes
    {
      var cells := ms[i].cells;
      var j := 0;
      while j < |cells|
        invariant 0 <= j <= |cells|
        invariant n == |AllCells(ms[..i])| + j && n <= |all|
        invariant ConcatMap(all[..n], ScopeEntry).outcome == Done
        invariant f.bytes == old(f.bytes) + ConcatMap(all[..n], ScopeEntry).bytes
      {
        CellAt(ms, i, j);
        o := EmitScopeEntry(f, cells[j]);
        ConcatMapLoopStep(old(f.bytes), all, n, ScopeEntry, f.bytes, o);
        n := n + 1;
        if o.Fatal? {
          return;
        }
        j := j + 1;
      }
      CellsCount(ms, i);
      i := i + 1;
    }
    assert ms[..i] == ms && all[..n] == all;
    o := Done;
  }

  /** `emit_module_info(f, design)`: the two passes over the cells. */
  method EmitModuleInfo(f: OutStream, ms: seq<Module>) returns (o: Outcome)
    modifies f
    ensures f.bytes == old(f.bytes) + ModuleInfo(ms).bytes && o == ModuleInfo(ms).outcome
  {
    o := EmitCellTypes(f, ms);
    if o.Fatal? {
      return;
    }
    o := EmitScopeNames(f, ms);
    ThenAppend(old(f.bytes), ConcatMap(AllCells(ms), TypeEntry), ConcatMap(AllCells(ms), ScopeEntry));
  }

  /** The ten-byte direction block `ze`, or the fatal error. */
  method EmitDirection(f: OutStream, isInput: bool, isOutput: bool, name: string) returns (o: Outcome)
    modifies f
    ensures f.bytes == old(f.bytes) + Direction(isInput, isOutput, name).bytes
    ensures o == Direction(isInput, isOutput, name).outcome
  {
    var ze := Zeros(10);
    if isInput {
      ze := ze[0 := 0x01];
      assert ze == [0x01] + Zeros(9);
      f.Ld(ze);
      o := Done;
    } else if isOutput {
      ze := ze[0 := 0x02];
      assert ze == [0x02] + Zeros(9);
      f.Ld(ze);
      o := Done;
    } else {
      o := Fatal(NeitherInputNorOutput(name));
    }
  }

  /** One connection of a cell in `emit_module_port_info`. */
  method EmitConnection(f: OutStream, cn: Connection) returns (o: Outcome)
    modifies f
    ensures f.bytes == old(f.bytes) + ConnectionEntry(cn).bytes && o == ConnectionEntry(cn).outcome
  {
    o := LdEncoded(f, cn.port);
    if o.Fatal? {
      return;
    }
    f.Ld(Zeros(10));
    ThenAppend(old(f.bytes), Id(cn.port), Write(Zeros(10)));
    ghost var e := Id(cn.port).Then(Write(Zeros(10)));
    o := EmitDirection(f, cn.isInput, cn.isOutput, cn.port);
    ThenAppend(old(f.bytes), e, Direction(cn.isInput, cn.isOutput, cn.port));
  }

  /** One cell in `emit_module_port_info`: the connection count, a zero and
      every connection. */
  method EmitCellPorts(f: OutStream, c: Cell) returns (o: Outcome)
    modifies f
    ensures f.bytes == old(f.bytes) + CellPorts(c).bytes && o == CellPorts(c).outcome
  {
    var conns := c.connections;
    var sz: byte := |conns| % 0x100;
    f.LdByte(sz);
    f.LdByte(0x00);
    ghost var f0 := old(f.bytes) + [sz, 0x00];
    assert f.bytes == f0;
    var k := 0;
    while k < |conns|
      invariant 0 <= k <= |conns|
      invariant ConcatMap(conns[..k], ConnectionEntry).outcome == Done
      invariant f.bytes == f0 + ConcatMap(conns[..k], ConnectionEntry).bytes
    {
      o := EmitConnection(f, conns[k]);
      ConcatMapLoopStep(f0, conns, k, ConnectionEntry, f.bytes, o);
      if o.Fatal? {
        AppendAssoc(old(f.bytes), [sz, 0x00], ConcatMap(conns, ConnectionEntry).bytes);
        return;
      }
      k := k + 1;
    }
    assert conns[..k] == conns;
    AppendAssoc(old(f.bytes), [sz, 0x00], ConcatMap(conns, ConnectionEntry).bytes);
    o := Done;
  }


  /** The loop of `emit_module_port_info` over the cells of the design. */
  method EmitAllCellPorts(f: OutStream, ms: seq<Module>) returns (o: Outcome)
    modifies f
    ensures f.bytes == old(f.bytes) + ConcatMap(AllCells(ms), CellPorts).bytes
    ensures o == ConcatMap(AllCells(ms), CellPorts).outcome
  {
    ghost var all := AllCells(ms);
    ghost var n := 0;
    var i := 0;
    while i < |ms|
      invariant 0 <= i <= |ms|
      invariant n == |AllCells(ms[..i])| && n <= |all|
      invariant ConcatMap(all[..n], CellPorts).outcome == Done
      invariant f.bytes == old(f.bytes) + ConcatMap(all[..n], CellPorts).bytes
    {
      var cells := ms[i].cells;
      var j := 0;
      while j < |cells|
        invariant 0 <= j <= |cells|
        invariant n == |AllCells(ms[..i])| + j && n <= |all|
        invariant ConcatMap(all[..n], CellPorts).outcome == Done
        invariant f.bytes == old(f.bytes) + ConcatMap(all[..n], CellPorts).bytes
      {
        CellAt(ms, i, j);
        o := EmitCellPorts(f, cells[j]);
        ConcatMapLoopStep(old(f.bytes), all, n, CellPorts, f.bytes, o);
        n := n + 1;
        if o.Fatal? {
          return;
        }
        j := j + 1;
      }
      CellsCount(ms, i);
      i := i + 1;
    }
    assert ms[..i] == ms && all[..n] == all;
    o := Done;
  }

  /** The wires of the top module in `emit_module_port_info`. */
  /** One wire of the top module `top` in `emit_module_port_info`. */
  method EmitWireEntry(f: OutStream, top: string, w: Wire) returns (o: Outcome)
    modifies f
    ensures f.bytes == old(f.bytes) + WireEntry(top)(w).bytes && o == WireEntry(top)(w).outcome
  {
    o := LdEncoded(f, w.name);
    if o.Fatal? {
      return;
    }
    f.Ld(Zeros(12));
    ThenAppend(old(f.bytes), Id(w.name), Write(Zeros(12)));
    ghost var e := Id(w.name).Then(Write(Zeros(12)));
    o := EmitDirection(f, w.portInput, w.portOutput, top);
    ThenAppend(old(f.bytes), e, Direction(w.portInput, w.portOutput, top));
  }

  method EmitTopWires(f: OutStream, m: Module) returns (o: Outcome)
    modifies f
    ensures f.bytes == old(f.bytes) + TopWires(m).bytes && o == TopWires(m).outcome
  {
    var wires := m.wires;
    var sz: byte := |wires| % 0x100;
    f.LdByte(sz);
    f.LdByte(0x00);
    ghost var f0 := old(f.bytes) + [sz, 0x00];
    assert f.bytes == f0;
    ghost var entry := WireEntry(m.name);
    var k := 0;
    while k < |wires|
      invariant 0 <= k <= |wires|
      invariant ConcatMap(wires[..k], entry).outcome == Done
      invariant f.bytes == f0 + ConcatMap(wires[..k], entry).bytes
    {
      var ww := wires[k];
      o := EmitWireEntry(f, m.name, ww);
      ConcatMapLoopStep(f0, wires, k, entry, f.bytes, o);
      if o.Fatal? {
        AppendAssoc(old(f.bytes), [sz, 0x00], ConcatMap(wires, entry).bytes);
        return;
      }
      k := k + 1;
    }
    assert wires[..k] == wires;
    AppendAssoc(old(f.bytes), [sz, 0x00], ConcatMap(wires, entry).bytes);
    o := Done;
  }


  /** The 15-byte block written twice by `emit_module_port_info`. */
  method EmitPreambleBlock(f: OutStream)
    modifies f
    ensures f.bytes == old(f.bytes) + PreambleBlock()
  {
    f.Ld(PreambleHeader);
    f.LdByte(0x00);
    f.RevLd(VdbTimestamp);
    AppendAssoc(old(f.bytes), PreambleHeader + [0x00], Reversed(VdbTimestamp));
    f.LdByte(0xff);
    AppendAssoc(old(f.bytes), PreambleHeader + [0x00] + Reversed(VdbTimestamp), [0xff]);
  }

  /** `emit_module_port_info(f, design, top)`. */
  method EmitModulePortInfo(f: OutStream, ms: seq<Module>, top: string) returns (o: Outcome)
    requires ModuleNamed(ms, top).Some?
    modifies f
    ensures f.bytes == old(f.bytes) + ModulePortInfo(ms, top).bytes && o == ModulePortInfo(ms, top).outcome
  {
    ghost var f0 := f.bytes;
    EmitPreambleBlock(f);
    f.Ld(Zeros(8));
    AppendAssoc(f0, PreambleBlock(), Zeros(8));
    ghost var e := Write(PreambleBlock() + Zeros(8));
    o := LdEncoded(f, top);
    ThenAppend(f0, e, Id(top));
    e := e.Then(Id(top));
    if o.Fatal? {
      return;
    }
    ghost var before := f.bytes;
    f.Ld(Zeros(10));
    EmitPreambleBlock(f);
    AppendAssoc(before, Zeros(10), PreambleBlock());
    ThenAppend(f0, e, Write(Zeros(10) + PreambleBlock()));
    e := e.Then(Write(Zeros(10) + PreambleBlock()));
    o := EmitAllCellPorts(f, ms);
    ThenAppend(f0, e, ConcatMap(AllCells(ms), CellPorts));
    e := e.Then(ConcatMap(AllCells(ms), CellPorts));
    if o.Fatal? {
      return;
    }
    var m := ModuleNamed(ms, top).value;
    o := EmitTopWires(f, m);
    ThenAppend(f0, e, TopWires(m));
  }


  /** `emit_primary_inputs(f, design, top)`: every port of the top module
      must be an input or an output; nothing is written. */
  method EmitPrimaryInputs(ms: seq<Module>, top: string) returns (o: Outcome)
    requires ModuleNamed(ms, top).Some?
    requires PortsAreWires(ModuleNamed(ms, top).value)
    ensures o == PrimaryInputs(ModuleNamed(ms, top).value).outcome
  {
    var m := ModuleNamed(ms, top).value;
    var ports := m.ports;
    var k := 0;
    while k < |ports|
      invariant 0 <= k <= |ports|
      invariant ConcatMap(ports[..k], PortCheck(m)) == Write([])
    {
      var name := ports[k];
      var w := WireNamed(m.wires, name).value;
      ConcatMapStep(ports, k, PortCheck(m));
      if !w.portInput && !w.portOutput {
        ConcatMapStopped(ports, k + 1, PortCheck(m));
        return Fatal(NeitherInputNorOutput(name));
      }
      k := k + 1;
    }
    assert ports[..k] == ports;
    o := Done;
  }

  /** The loop of `execute` that picks the top module's name. */
  method ResolveTop(ms: seq<Module>) returns (top: string)
    ensures top == TopName(ms)
  {
    top := "";
    var i := 0;
    while i < |ms|
      invariant 0 <= i <= |ms|
      invariant top == TopName(ms[..i])
    {
      TopNameSnoc(ms[..i], ms[i]);
      assert ms[..i + 1] == ms[..i] + [ms[i]];
      if BoolAttribute(ms[i].attributes, TopAttribute) {
        top := ms[i].name;
      }
      i := i + 1;
    }
    assert ms[..i] == ms;
  }

  /** `execute`: the whole export of the design to the stream `f`.  The
      design must have a module marked as the top whose ports are all
      wires. */
  method Execute(f: OutStream, ms: seq<Module>) returns (o: Outcome)
    requires ModuleNamed(ms, TopName(ms)).Some?
    requires PortsAreWires(ModuleNamed(ms, TopName(ms)).value)
    modifies f
    ensures f.bytes == old(f.bytes) + Export(ms).bytes && o == Export(ms).outcome
  {
    var top := ResolveTop(ms);
    var wireMap := new WireMap();
    InitWireMap(wireMap, ms);
    o := EmitHeader(f, top);
    ghost var e := Header(top);
    if o.Fatal? {
      return;
    }
    f.Ld([0x02, 0x00]);
    ThenAppend(old(f.bytes), e, Write([0x02, 0x00]));
    e := e.Then(Write([0x02, 0x00]));
    o := EmitModuleInfo(f, ms);
    ThenAppend(old(f.bytes), e, ModuleInfo(ms));
    e := e.Then(ModuleInfo(ms));
    if o.Fatal? {
      return;
    }
    o := EmitModulePortInfo(f, ms, top);
    ThenAppend(old(f.bytes), e, ModulePortInfo(ms, top));
    e := e.Then(ModulePortInfo(ms, top));
    if o.Fatal? {
      return;
    }
    o := EmitPrimaryInputs(ms, top);
    PrimaryInputsCheck(ModuleNamed(ms, top).value);
    ThenAppend(old(f.bytes), e, PrimaryInputs(ModuleNamed(ms, top).value));
  }

}
