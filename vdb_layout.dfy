/** The byte layout of a VDB file as the backend writes it: one function per
    emitter of backends/vdb/vdb.cc, giving the bytes it writes and whether
    the export then stops on a fatal error, and the lemmas about them. */
module VdbLayout {
  import opened Wrappers
  import opened Bytes
  import opened Emit
  import opened Cipher
  import opened Rtlil

  const VdbHeader: seq<byte> := [0x03, 0x1f, 0x6c, 0x12]
  const VdbVersion: seq<byte> := [0xa0, 0x00, 0x00, 0x0b]
  const VdbEncrypAlgo: seq<byte> := [0x08, 0x03, 0x1f, 0x7a, 0xe4, 0x40]
  const VdbTimestamp: seq<byte> := [0x00, 0x00, 0x00, 0x00, 0x66, 0xc4, 0x3d, 0x7a]
  const Idk: seq<byte> := [0x01, 0x00, 0x20, 0x20, 0x00, 0x02]
  const PreambleHeader: seq<byte> := [0x40, 0x31, 0x00, 0xab, 0x00]

  /** The type of the cells that only carry scope information. */
  const ScopeInfo: string := "$scopeinfo"

  /** `ld(*f, map_encode(s))`: the encoding of `s`, or nothing and a fatal
      error when a character of `s` has no code. */
  function Id(s: string): Emission
  {
    match Encode(s)
    case Ok(b) => Write(b)
    case Err(e) => Emission([], Fatal(e))
  }

  // ---- emit_header -------------------------------------------------------

  /** The fixed start of the header: the identification constants, the
      first four and the timestamp each reversed. */
  function HeaderStart(): seq<byte>
  {
    Reversed(VdbHeader) + Reversed(VdbVersion) + Zeros(4) + Reversed(VdbEncrypAlgo)
      + Reversed(VdbTimestamp) + Idk + PreambleHeader
  }

  /** `emit_header(f, top)`. */
  function Header(top: string): Emission
  {
    Write(HeaderStart()).Then(Id(LibraryName)).Then(Id(top)).Then(Id(top))
  }

  // ---- emit_module_info --------------------------------------------------

  /** What the first pass writes for one cell: its encoded type and ten
      zeros, unless it is a `$scopeinfo` cell. */
  function TypeEntry(c: Cell): Emission
  {
    if c.cellType != ScopeInfo then Id(c.cellType).Then(Write(Zeros(10))) else Write([])
  }

  /** What the second pass writes for one cell: its encoded name and ten
      zeros, for a `$scopeinfo` cell only. */
  function ScopeEntry(c: Cell): Emission
  {
    if c.cellType == ScopeInfo then Id(c.name).Then(Write(Zeros(10))) else Write([])
  }

  /** `emit_module_info(f, design)`. */
  function ModuleInfo(ms: seq<Module>): Emission
  {
    ConcatMap(AllCells(ms), TypeEntry).Then(ConcatMap(AllCells(ms), ScopeEntry))
  }

  // ---- emit_module_port_info ----------------------------------------------

  /** The 15-byte block that opens the port information, twice. */
  function PreambleBlock(): seq<byte>
  {
    PreambleHeader + [0x00] + Reversed(VdbTimestamp) + [0xff]
  }

  /** The ten-byte direction block: 0x01 for an input, which is checked
      first, else 0x02 for an output; anything else is fatal, reported
      with `name`. */
  function Direction(isInput: bool, isOutput: bool, name: string): Emission
  {
    if isInput then Write([0x01] + Zeros(9))
    else if isOutput then Write([0x02] + Zeros(9))
    else Emission([], Fatal(NeitherInputNorOutput(name)))
  }

  /** One connection of a cell. */
  function ConnectionEntry(cn: Connection): Emission
  {
    Id(cn.port).Then(Write(Zeros(10))).Then(Direction(cn.isInput, cn.isOutput, cn.port))
  }

  /** One cell: its connection count as a byte, a zero, then every
      connection. */
  function CellPorts(c: Cell): Emission
  {
    Write([|c.connections| % 0x100, 0x00]).Then(ConcatMap(c.connections, ConnectionEntry))
  }

  /** One wire of the top module.  A wire with no direction is reported with
      the name of the top module, `top`, as the source's message does. */
  function WireEntry(top: string): Wire -> Emission
  {
    (w: Wire) => Id(w.name).Then(Write(Zeros(12))).Then(Direction(w.portInput, w.portOutput, top))
  }

  /** The wires of the top module `m`, behind their count. */
  function TopWires(m: Module): Emission
  {
    Write([|m.wires| % 0x100, 0x00]).Then(ConcatMap(m.wires, WireEntry(m.name)))
  }

  /** `emit_module_port_info(f, design, top)`; `design->module(top)` must
      exist. */
  function ModulePortInfo(ms: seq<Module>, top: string): Emission
    requires ModuleNamed(ms, top).Some?
  {
    Write(PreambleBlock() + Zeros(8)).Then(Id(top)).Then(Write(Zeros(10) + PreambleBlock()))
      .Then(ConcatMap(AllCells(ms), CellPorts)).Then(TopWires(ModuleNamed(ms, top).value))
  }

  // ---- emit_primary_inputs -----------------------------------------------

  /** The check of one port of `m`: its wire must be an input or an
      output. */
  function PortCheck(m: Module): string -> Emission
  {
    (p: string) =>
      match WireNamed(m.wires, p)
      case Some(w) =>
        if w.portInput || w.portOutput then Write([]) else Emission([], Fatal(NeitherInputNorOutput(p)))
      case None => Write([])
  }

  /** Every port of `m` names one of its wires (`mod->wire(name)` is not
      null). */
  predicate PortsAreWires(m: Module)
  {
    forall p :: p in m.ports ==> WireNamed(m.wires, p).Some?
  }

  /** `emit_primary_inputs(f, design, top)` for the top module `m`. */
  function PrimaryInputs(m: Module): Emission
  {
    ConcatMap(m.ports, PortCheck(m))
  }

  // ---- execute ---------------------------------------------------------

  /** The position of the last module with a true `top` attribute. */
  function LastTop(ms: seq<Module>): (r: Option<nat>)
  {
    if ms == [] then None
    else if BoolAttribute(ms[|ms| - 1].attributes, TopAttribute) then Some(|ms| - 1)
    else LastTop(ms[..|ms| - 1])
  }

  /** `top_module_name` after the loop in `execute`: empty when no module
      is marked as the top. */
  function TopName(ms: seq<Module>): string
  {
    match LastTop(ms)
    case Some(i) => if i < |ms| then ms[i].name else ""
    case None => ""
  }

  /** `execute`: header, the two bytes 0x02 0x00, module info, port info,
      then the port check. */
  function Export(ms: seq<Module>): Emission
    requires ModuleNamed(ms, TopName(ms)).Some?
  {
    var top := TopName(ms);
    Header(top).Then(Write([0x02, 0x00])).Then(ModuleInfo(ms)).Then(ModulePortInfo(ms, top))
      .Then(PrimaryInputs(ModuleNamed(ms, top).value))
  }

  // ---- what the layout promises ------------------------------------------

  /** The header opens with these 37 bytes: the identification, the
      encryption algorithm and timestamp, then the two fixed blocks. */
  lemma HeaderStartBytes()
    ensures HeaderStart() == [0x12, 0x6c, 0x1f, 0x03, 0x0b, 0x00, 0x00, 0xa0, 0x00, 0x00, 0x00, 0x00]
      + [0x40, 0xe4, 0x7a, 0x1f, 0x03, 0x08, 0x7a, 0x3d, 0xc4, 0x66, 0x00, 0x00, 0x00, 0x00]
      + [0x01, 0x00, 0x20, 0x20, 0x00, 0x02, 0x40, 0x31, 0x00, 0xab, 0x00]
  {
    IdentificationReversed();
    TimestampReversed();
    assert Zeros(4) == [0, 0, 0, 0];
    var ids := Reversed(VdbHeader) + Reversed(VdbVersion) + Zeros(4);
    assert ids == [0x12, 0x6c, 0x1f, 0x03, 0x0b, 0x00, 0x00, 0xa0, 0x00, 0x00, 0x00, 0x00];
    var algo := Reversed(VdbEncrypAlgo) + Reversed(VdbTimestamp);
    assert algo == [0x40, 0xe4, 0x7a, 0x1f, 0x03, 0x08, 0x7a, 0x3d, 0xc4, 0x66, 0x00, 0x00, 0x00, 0x00];
    assert HeaderStart() == ids + algo + (Idk + PreambleHeader);
  }

  lemma IdentificationReversed()
    ensures Reversed(VdbHeader) == [0x12, 0x6c, 0x1f, 0x03]
    ensures Reversed(VdbVersion) == [0x0b, 0x00, 0x00, 0xa0]
    ensures Reversed(VdbEncrypAlgo) == [0x40, 0xe4, 0x7a, 0x1f, 0x03, 0x08]
  {
    ReversedAt(VdbHeader);
    ReversedAt(VdbVersion);
    ReversedAt(VdbEncrypAlgo);
  }

  lemma TimestampReversed()
    ensures Reversed(VdbTimestamp) == [0x7a, 0x3d, 0xc4, 0x66, 0x00, 0x00, 0x00, 0x00]
  {
    ReversedAt(VdbTimestamp);
  }

  /** The header is the fixed start, the encoded library name and the
      encoded top-module name twice: 37 + 15 + 2 * (|top| + 1) bytes.  A top
      name with an unmapped character stops the export after the library
      name. */
  lemma HeaderLayout(top: string)
    ensures |HeaderStart()| == 37
    ensures Encode(LibraryName).Ok? && |Encode(LibraryName).value| == 15
    ensures Encode(top).Ok? ==>
      var h := Header(top).bytes;
      Header(top).outcome == Done &&
      |h| == 37 + 15 + 2 * (|top| + 1) &&
      h[..37] == HeaderStart() &&
      h[37..52] == Encode(LibraryName).value &&
      h[52..] == Encode(top).value + Encode(top).value
    ensures Encode(top).Err? ==>
      Header(top) == Emission(HeaderStart() + Encode(LibraryName).value, Fatal(Encode(top).error))
  {
    LibraryNameEncodes();
    HeaderStartBytes();
    if Encode(top).Ok? {
      HeaderBytes(top);
    }
  }

  lemma HeaderBytes(top: string)
    requires Encode(top).Ok? && Encode(LibraryName).Ok?
    ensures Header(top) == Write(HeaderStart() + Encode(LibraryName).value + Encode(top).value + Encode(top).value)
  {
  }

  /** The length of what `emit_module_info` writes for a cell. */
  function InfoSize(c: Cell): nat
  {
    if c.cellType == ScopeInfo then |c.name| + 11 else |c.cellType| + 11
  }

  function TypeSize(c: Cell): nat
  {
    if c.cellType == ScopeInfo then 0 else |c.cellType| + 11
  }

  function ScopeSize(c: Cell): nat
  {
    if c.cellType == ScopeInfo then |c.name| + 11 else 0
  }

  /** The name `emit_module_info` encodes for a cell can be encoded. */
  predicate InfoEncodes(c: Cell)
  {
    if c.cellType == ScopeInfo then Mapped(c.name) else Mapped(c.cellType)
  }

  /** Each cell is written by exactly one of the two passes: by the first
      with its type, unless it is a `$scopeinfo` cell, which the second
      writes with its name.  The entry completes iff that name can be
      encoded; otherwise it writes nothing and reports the character. */
  lemma OneEntryPerCell(c: Cell)
    ensures TypeEntry(c).outcome == Done && ScopeEntry(c).outcome == Done <==> InfoEncodes(c)
    ensures c.cellType != ScopeInfo ==> ScopeEntry(c) == Write([])
    ensures c.cellType == ScopeInfo ==> TypeEntry(c) == Write([])
    ensures c.cellType != ScopeInfo && Mapped(c.cellType) ==>
      TypeEntry(c).bytes == Encode(c.cellType).value + Zeros(10)
    ensures c.cellType == ScopeInfo && Mapped(c.name) ==>
      ScopeEntry(c).bytes == Encode(c.name).value + Zeros(10)
    ensures c.cellType != ScopeInfo && !Mapped(c.cellType) ==>
      TypeEntry(c) == Emission([], Fatal(Encode(c.cellType).error))
    ensures c.cellType == ScopeInfo && !Mapped(c.name) ==>
      ScopeEntry(c) == Emission([], Fatal(Encode(c.name).error))
    ensures InfoEncodes(c) ==> |TypeEntry(c).bytes| == TypeSize(c) && |ScopeEntry(c).bytes| == ScopeSize(c)
  {
  }

  /** When every name it writes can be encoded, `emit_module_info` writes
      one entry per cell of the design and nothing else. */
  lemma ModuleInfoLength(ms: seq<Module>)
    requires forall c :: c in AllCells(ms) ==> InfoEncodes(c)
    ensures ModuleInfo(ms).outcome == Done
    ensures |ModuleInfo(ms).bytes| == Sum(AllCells(ms), InfoSize)
  {
    var cells := AllCells(ms);
    forall c | c in cells
      ensures TypeEntry(c).outcome == Done && |TypeEntry(c).bytes| == TypeSize(c)
      ensures ScopeEntry(c).outcome == Done && |ScopeEntry(c).bytes| == ScopeSize(c)
    {
      OneEntryPerCell(c);
    }
    ConcatMapLength(cells, TypeEntry, TypeSize);
    ConcatMapLength(cells, ScopeEntry, ScopeSize);
    SumPlus(cells, TypeSize, ScopeSize, InfoSize);
  }

  /** The 15-byte block that opens the port information, twice. */
  lemma PreambleBlockBytes()
    ensures PreambleBlock() == [0x40, 0x31, 0x00, 0xab, 0x00, 0x00, 0x7a, 0x3d, 0xc4, 0x66, 0x00, 0x00, 0x00, 0x00, 0xff]
  {
    TimestampReversed();
  }

  /** The port information opens with a preamble block, eight zeros, the
      encoded top name, ten zeros and a second preamble block; a top name
      that cannot be encoded stops it after the eight zeros. */
  lemma ModulePortInfoStart(ms: seq<Module>, top: string)
    requires ModuleNamed(ms, top).Some?
    ensures Encode(top).Ok? ==>
      var start := PreambleBlock() + Zeros(8) + Encode(top).value + Zeros(10) + PreambleBlock();
      |start| == 48 + |top| + 1 &&
      |ModulePortInfo(ms, top).bytes| >= |start| &&
      ModulePortInfo(ms, top).bytes[..|start|] == start
    ensures Encode(top).Err? ==>
      ModulePortInfo(ms, top) == Emission(PreambleBlock() + Zeros(8), Fatal(Encode(top).error))
  {
    var s := Write(PreambleBlock() + Zeros(8)).Then(Id(top)).Then(Write(Zeros(10) + PreambleBlock()));
    ThenThenKeeps(s, ConcatMap(AllCells(ms), CellPorts), TopWires(ModuleNamed(ms, top).value));
    if Encode(top).Ok? {
      PortInfoOpening(top);
    } else {
      assert PreambleBlock() + Zeros(8) + [] == PreambleBlock() + Zeros(8);
    }
  }

  lemma PortInfoOpening(top: string)
    requires Encode(top).Ok?
    ensures
      var start := PreambleBlock() + Zeros(8) + Encode(top).value + Zeros(10) + PreambleBlock();
      |start| == 48 + |top| + 1 &&
      Write(PreambleBlock() + Zeros(8)).Then(Id(top)).Then(Write(Zeros(10) + PreambleBlock())) == Write(start)
  {
    TimestampReversed();
  }

  /** The direction block: 0x01 for an input, whether or not it is also an
      output, 0x02 for an output that is not an input, nine zeros after it;
      fatal, writing nothing, for a port that is neither. */
  lemma DirectionLayout(isInput: bool, isOutput: bool, name: string)
    ensures Direction(isInput, isOutput, name).outcome == Done <==> isInput || isOutput
    ensures isInput ==> Direction(isInput, isOutput, name).bytes == [0x01, 0, 0, 0, 0, 0, 0, 0, 0, 0]
    ensures !isInput && isOutput ==> Direction(isInput, isOutput, name).bytes == [0x02, 0, 0, 0, 0, 0, 0, 0, 0, 0]
    ensures !isInput && !isOutput ==>
      Direction(isInput, isOutput, name) == Emission([], Fatal(NeitherInputNorOutput(name)))
  {
    assert Zeros(9) == [0, 0, 0, 0, 0, 0, 0, 0, 0];
  }

  /** One connection: its encoded port name, ten zeros and its direction
      block, 21 bytes after the name.  It completes iff the port name can be
      encoded and the port has a direction.  A port name that cannot be
      encoded stops the export before anything is written, reporting the
      character; a connection with no direction stops it right after the
      zeros, reporting the port. */
  lemma ConnectionEntryLayout(cn: Connection)
    ensures ConnectionEntry(cn).outcome == Done <==> Mapped(cn.port) && (cn.isInput || cn.isOutput)
    ensures !Mapped(cn.port) ==> ConnectionEntry(cn) == Emission([], Fatal(Encode(cn.port).error))
    ensures Mapped(cn.port) ==>
      ConnectionEntry(cn).bytes == Encode(cn.port).value + Zeros(10) + Direction(cn.isInput, cn.isOutput, cn.port).bytes
    ensures ConnectionEntry(cn).outcome == Done ==> |ConnectionEntry(cn).bytes| == |cn.port| + 21
    ensures Mapped(cn.port) && ConnectionEntry(cn).outcome.Fatal? ==>
      ConnectionEntry(cn).outcome == Fatal(NeitherInputNorOutput(cn.port))
  {
    DirectionLayout(cn.isInput, cn.isOutput, cn.port);
  }

  function ConnectionSize(cn: Connection): nat
  {
    |cn.port| + 21
  }

  /** One cell: its connection count modulo 256 and a zero, then its
      connections, 2 + the sum of their lengths. */
  lemma CellPortsLayout(c: Cell)
    ensures |CellPorts(c).bytes| >= 2
    ensures CellPorts(c).bytes[0] == |c.connections| % 0x100 && CellPorts(c).bytes[1] == 0
    ensures (forall cn :: cn in c.connections ==> Mapped(cn.port) && (cn.isInput || cn.isOutput)) ==>
      CellPorts(c).outcome == Done && |CellPorts(c).bytes| == 2 + Sum(c.connections, ConnectionSize)
  {
    if forall cn :: cn in c.connections ==> Mapped(cn.port) && (cn.isInput || cn.isOutput) {
      forall cn | cn in c.connections
        ensures ConnectionEntry(cn).outcome == Done && |ConnectionEntry(cn).bytes| == ConnectionSize(cn)
      {
        ConnectionEntryLayout(cn);
      }
      ConcatMapLength(c.connections, ConnectionEntry, ConnectionSize);
    }
  }

  /** One wire of the top module: its encoded name, twelve zeros and its
      direction block, 23 bytes after the name.  It completes iff the name
      can be encoded and the wire has a direction.  A name that cannot be
      encoded stops the export before anything is written, reporting the
      character; a wire with no direction stops it, reporting the top
      module's name. */
  lemma WireEntryLayout(top: string, w: Wire)
    ensures WireEntry(top)(w).outcome == Done <==> Mapped(w.name) && (w.portInput || w.portOutput)
    ensures !Mapped(w.name) ==> WireEntry(top)(w) == Emission([], Fatal(Encode(w.name).error))
    ensures Mapped(w.name) ==>
      WireEntry(top)(w).bytes == Encode(w.name).value + Zeros(12) + Direction(w.portInput, w.portOutput, top).bytes
    ensures WireEntry(top)(w).outcome == Done ==> |WireEntry(top)(w).bytes| == |w.name| + 23
    ensures Mapped(w.name) && WireEntry(top)(w).outcome.Fatal? ==>
      WireEntry(top)(w).outcome == Fatal(NeitherInputNorOutput(top))
  {
    DirectionLayout(w.portInput, w.portOutput, top);
  }

  function WireSize(w: Wire): nat
  {
    |w.name| + 23
  }

  /** The wires of the top module: their count modulo 256 and a zero, then
      every wire; when each name is mapped, a wire with no direction stops
      the export with the top module's name. */
  lemma TopWiresLayout(m: Module)
    ensures |TopWires(m).bytes| >= 2
    ensures TopWires(m).bytes[0] == |m.wires| % 0x100 && TopWires(m).bytes[1] == 0
    ensures (forall w :: w in m.wires ==> Mapped(w.name) && (w.portInput || w.portOutput)) ==>
      TopWires(m).outcome == Done && |TopWires(m).bytes| == 2 + Sum(m.wires, WireSize)
    ensures (forall w :: w in m.wires ==> Mapped(w.name)) && (exists w :: w in m.wires && !w.portInput && !w.portOutput) ==>
      TopWires(m).outcome == Fatal(NeitherInputNorOutput(m.name))
  {
    var f := WireEntry(m.name);
    if forall w :: w in m.wires ==> Mapped(w.name) {
      forall w | w in m.wires
        ensures f(w).outcome == Done <==> w.portInput || w.portOutput
        ensures f(w).outcome == Done ==> |f(w).bytes| == WireSize(w)
        ensures f(w).outcome.Fatal? ==> f(w).outcome == Fatal(NeitherInputNorOutput(m.name))
      {
        WireEntryLayout(m.name, w);
      }
      if forall w :: w in m.wires ==> w.portInput || w.portOutput {
        ConcatMapLength(m.wires, f, WireSize);
      } else {
        ConcatMapAllDone(m.wires, f);
        ConcatMapFatalWith(m.wires, f, Fatal(NeitherInputNorOutput(m.name)));
      }
    }
  }

  /** `emit_primary_inputs` writes nothing; it stops the export exactly when
      a port's wire is neither an input nor an output, reporting the first
      such port. */
  lemma PrimaryInputsCheck(m: Module)
    requires PortsAreWires(m)
    ensures PrimaryInputs(m).bytes == []
    ensures PrimaryInputs(m).outcome == Done <==>
      forall k :: 0 <= k < |m.ports| ==> WireNamed(m.wires, m.ports[k]).value.portInput || WireNamed(m.wires, m.ports[k]).value.portOutput
    ensures PrimaryInputs(m).outcome.Fatal? ==>
      exists k :: 0 <= k < |m.ports| && PrimaryInputs(m).outcome == Fatal(NeitherInputNorOutput(m.ports[k])) &&
        !WireNamed(m.wires, m.ports[k]).value.portInput && !WireNamed(m.wires, m.ports[k]).value.portOutput &&
        forall j :: 0 <= j < k ==> WireNamed(m.wires, m.ports[j]).value.portInput || WireNamed(m.wires, m.ports[j]).value.portOutput
  {
    var f := PortCheck(m);
    ConcatMapAllDone(m.ports, f);
    NoBytes(m.ports, f);
    if PrimaryInputs(m).outcome.Fatal? {
      var k := FirstFatal(m.ports, f);
      ConcatMapStopsAt(m.ports, k, f);
    }
  }

  /** A check that writes nothing for every element writes nothing. */
  lemma {:induction false} NoBytes<T>(xs: seq<T>, f: T -> Emission)
    requires forall x :: x in xs ==> f(x).bytes == []
    ensures ConcatMap(xs, f).bytes == []
  {
    if xs != [] {
      NoBytes(xs[..|xs| - 1], f);
    }
  }

  /** The position of the first element whose emission is fatal. */
  lemma FirstFatal<T>(xs: seq<T>, f: T -> Emission) returns (k: nat)
    requires ConcatMap(xs, f).outcome.Fatal?
    ensures k < |xs| && f(xs[k]).outcome.Fatal?
    ensures forall j :: 0 <= j < k ==> f(xs[j]).outcome == Done
  {
    ConcatMapAllDone(xs, f);
    var i :| 0 <= i < |xs| && f(xs[i]).outcome != Done;
    k := 0;
    while f(xs[k]).outcome == Done
      invariant k <= i
      invariant forall j :: 0 <= j < k ==> f(xs[j]).outcome == Done
      decreases i - k
    {
      k := k + 1;
    }
  }

  /** `execute` picks the LAST module marked as the top. */
  lemma {:induction false} LastTopIsLast(ms: seq<Module>)
    ensures LastTop(ms).Some? ==>
      LastTop(ms).value < |ms| && BoolAttribute(ms[LastTop(ms).value].attributes, TopAttribute) &&
      forall j :: LastTop(ms).value < j < |ms| ==> !BoolAttribute(ms[j].attributes, TopAttribute)
    ensures LastTop(ms).None? <==> forall j :: 0 <= j < |ms| ==> !BoolAttribute(ms[j].attributes, TopAttribute)
  {
    if ms != [] && !BoolAttribute(ms[|ms| - 1].attributes, TopAttribute) {
      var ms' := ms[..|ms| - 1];
      LastTopIsLast(ms');
      assert forall j :: 0 <= j < |ms'| ==> ms'[j] == ms[j];
    }
  }


  /** One more module: the loop of `execute` keeps the name of the last
      module marked as the top. */
  lemma TopNameSnoc(ms: seq<Module>, m: Module)
    ensures TopName(ms + [m]) == if BoolAttribute(m.attributes, TopAttribute) then m.name else TopName(ms)
  {
    assert (ms + [m])[..|ms|] == ms;
    if !BoolAttribute(m.attributes, TopAttribute) && LastTop(ms).Some? {
      LastTopIsLast(ms);
    }
  }

  /** The export starts with the 37 fixed header bytes whatever the design;
      when the top name can be encoded, the whole header follows and then
      the two bytes 0x02 0x00; `emit_primary_inputs` adds no bytes. */
  lemma ExportLayout(ms: seq<Module>)
    requires ModuleNamed(ms, TopName(ms)).Some?
    requires PortsAreWires(ModuleNamed(ms, TopName(ms)).value)
    ensures |Export(ms).bytes| >= 37 && Export(ms).bytes[..37] == HeaderStart()
    ensures Encode(TopName(ms)).Ok? ==>
      var n := 37 + 15 + 2 * (|TopName(ms)| + 1);
      |Export(ms).bytes| >= n + 2 && Export(ms).bytes[..n] == Header(TopName(ms)).bytes &&
      Export(ms).bytes[n..n + 2] == [0x02, 0x00]
    ensures Export(ms).bytes ==
      Header(TopName(ms)).Then(Write([0x02, 0x00])).Then(ModuleInfo(ms)).Then(ModulePortInfo(ms, TopName(ms))).bytes
  {
    var top := TopName(ms);
    PrimaryInputsCheck(ModuleNamed(ms, top).value);
    HeaderLayout(top);
    ExportShape(Header(top), ModuleInfo(ms), ModulePortInfo(ms, top), PrimaryInputs(ModuleNamed(ms, top).value));
    PrefixOfPrefix(Export(ms).bytes, Header(top).bytes, 37);
  }

  /** The shape of `execute`'s output, whatever the sections hold: the
      header first, then the two bytes 0x02 0x00 unless the header was
      fatal, and a last section that writes nothing adds nothing. */
  lemma ExportShape(h: Emission, info: Emission, ports: Emission, check: Emission)
    requires check.bytes == []
    ensures
      var e := h.Then(Write([0x02, 0x00])).Then(info).Then(ports);
      e.Then(check).bytes == e.bytes &&
      |e.bytes| >= |h.bytes| && e.bytes[..|h.bytes|] == h.bytes &&
      (h.outcome == Done ==> |e.bytes| >= |h.bytes| + 2 && e.bytes[|h.bytes|..|h.bytes| + 2] == [0x02, 0x00])
  {
    var hw := h.Then(Write([0x02, 0x00]));
    var e := hw.Then(info).Then(ports);
    ThenKeeps(hw, info);
    ThenKeeps(hw.Then(info), ports);
    PrefixOfPrefix(e.bytes, hw.bytes, |hw.bytes|);
    if h.outcome == Done {
      assert hw.bytes == h.bytes + [0x02, 0x00];
      assert e.bytes[..|hw.bytes|] == h.bytes + [0x02, 0x00];
      assert e.bytes[|h.bytes|..|h.bytes| + 2] == (h.bytes + [0x02, 0x00])[|h.bytes|..];
    }
    PrefixOfPrefix(e.bytes, hw.bytes, |h.bytes|);
  }
}
