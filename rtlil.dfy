/** The parts of a Yosys design (`RTLIL::Design`) that the VDB backend and
    the `efx_mult_bypass` pass read or change.  Iteration order of the
    design's modules, a module's wires and cells and a cell's connections
    is the order of these sequences. */
module Rtlil {
  import opened Wrappers

  /** An `RTLIL::Wire`: its name and port flags. */
  datatype Wire = Wire(name: string, portInput: bool, portOutput: bool)

  /** One entry of `cc->connections()`: the port name, and whether the
      cell's type declares it an input (`cc->input`) or an output
      (`cc->output`). */
  datatype Connection = Connection(port: string, isInput: bool, isOutput: bool)

  /** An `RTLIL::Cell`.  `attributes` maps each attribute name to the
      truth value of its constant (`Const::as_bool`). */
  datatype Cell = Cell(name: string, cellType: string, connections: seq<Connection>, attributes: map<string, bool>)

  /** An `RTLIL::Module`: `ports` lists the names of its port wires. */
  datatype Module = Module(name: string, wires: seq<Wire>, cells: seq<Cell>, ports: seq<string>, attributes: map<string, bool>)

  /** `get_bool_attribute(id)`: the attribute is present and true. */
  predicate BoolAttribute(attributes: map<string, bool>, id: string)
  {
    id in attributes && attributes[id]
  }

  /** `ID::top`. */
  const TopAttribute: string := "\\top"

  /** The cells of all modules, module by module. */
  function AllCells(ms: seq<Module>): (r: seq<Cell>)
    ensures ms == [] ==> r == []
  {
    if ms == [] then [] else AllCells(ms[..|ms| - 1]) + ms[|ms| - 1].cells
  }

  /** The wires of all modules, module by module. */
  function AllWires(ms: seq<Module>): (r: seq<Wire>)
    ensures ms == [] ==> r == []
  {
    if ms == [] then [] else AllWires(ms[..|ms| - 1]) + ms[|ms| - 1].wires
  }

  lemma AllCellsSnoc(ms: seq<Module>, m: Module)
    ensures AllCells(ms + [m]) == AllCells(ms) + m.cells
  {
    assert (ms + [m])[..|ms|] == ms;
  }

  lemma AllWiresSnoc(ms: seq<Module>, m: Module)
    ensures AllWires(ms + [m]) == AllWires(ms) + m.wires
  {
    assert (ms + [m])[..|ms|] == ms;
  }

  lemma {:induction false} AllCellsAppend(ms: seq<Module>, ms': seq<Module>)
    ensures AllCells(ms + ms') == AllCells(ms) + AllCells(ms')
  {
    if ms' == [] {
      assert ms + ms' == ms;
    } else {
      var init := ms'[..|ms'| - 1];
      assert ms + ms' == (ms + init) + [ms'[|ms'| - 1]];
      AllCellsSnoc(ms + init, ms'[|ms'| - 1]);
      AllCellsAppend(ms, init);
    }
  }

  lemma {:induction false} AllWiresAppend(ms: seq<Module>, ms': seq<Module>)
    ensures AllWires(ms + ms') == AllWires(ms) + AllWires(ms')
  {
    if ms' == [] {
      assert ms + ms' == ms;
    } else {
      var init := ms'[..|ms'| - 1];
      assert ms + ms' == (ms + init) + [ms'[|ms'| - 1]];
      AllWiresSnoc(ms + init, ms'[|ms'| - 1]);
      AllWiresAppend(ms, init);
    }
  }

  /** Where the cells of modules `i` and on come in the cells of the design:
      what a loop over modules has left to visit. */
  lemma CellsFrom(ms: seq<Module>, i: nat)
    requires i < |ms|
    ensures AllCells(ms) == AllCells(ms[..i]) + ms[i].cells + AllCells(ms[i + 1..])
  {
    var before, m, after := ms[..i], ms[i], ms[i + 1..];
    SplitAt(ms, i);
    AllCellsAppend(before + [m], after);
    AllCellsSnoc(before, m);
  }

  lemma SplitAt<T>(s: seq<T>, i: nat)
    requires i < |s|
    ensures s[..i] + [s[i]] + s[i + 1..] == s
  {
  }

  /** Cell `j` of module `i` is the cell the nested loops visit after the
      cells of the modules before `i` and the `j` cells before it. */
  lemma CellAt(ms: seq<Module>, i: nat, j: nat)
    requires i < |ms| && j < |ms[i].cells|
    ensures |AllCells(ms[..i])| + j < |AllCells(ms)|
    ensures AllCells(ms)[|AllCells(ms[..i])| + j] == ms[i].cells[j]
  {
    CellsFrom(ms, i);
  }

  lemma CellsCount(ms: seq<Module>, i: nat)
    requires i < |ms|
    ensures |AllCells(ms[..i + 1])| == |AllCells(ms[..i])| + |ms[i].cells|
  {
    AllCellsSnoc(ms[..i], ms[i]);
    assert ms[..i + 1] == ms[..i] + [ms[i]];
  }

  /** Where the wires of modules `i` and on come in the wires of the design:
      what a loop over modules has left to visit. */
  lemma WiresFrom(ms: seq<Module>, i: nat)
    requires i < |ms|
    ensures AllWires(ms) == AllWires(ms[..i]) + ms[i].wires + AllWires(ms[i + 1..])
  {
    var before, m, after := ms[..i], ms[i], ms[i + 1..];
    SplitAt(ms, i);
    AllWiresAppend(before + [m], after);
    AllWiresSnoc(before, m);
  }

  /** Wire `j` of module `i` is the wire the nested loops visit after the
      wires of the modules before `i` and the `j` wires before it. */
  lemma WireAt(ms: seq<Module>, i: nat, j: nat)
    requires i < |ms| && j < |ms[i].wires|
    ensures |AllWires(ms[..i])| + j < |AllWires(ms)|
    ensures AllWires(ms)[|AllWires(ms[..i])| + j] == ms[i].wires[j]
  {
    WiresFrom(ms, i);
  }

  lemma WiresCount(ms: seq<Module>, i: nat)
    requires i < |ms|
    ensures |AllWires(ms[..i + 1])| == |AllWires(ms[..i])| + |ms[i].wires|
  {
    AllWiresSnoc(ms[..i], ms[i]);
    assert ms[..i + 1] == ms[..i] + [ms[i]];
  }

  /** `design->module(name)`: the module called `name`, if there is one. */
  function ModuleNamed(ms: seq<Module>, name: string): (r: Option<Module>)
    ensures r.Some? <==> exists i :: 0 <= i < |ms| && ms[i].name == name
    ensures r.Some? ==> r.value in ms && r.value.name == name
  {
    if ms == [] then None
    else if ms[0].name == name then Some(ms[0])
    else ModuleNamed(ms[1..], name)
  }

  /** `mod->wire(name)`: the wire called `name`, if there is one. */
  function WireNamed(ws: seq<Wire>, name: string): (r: Option<Wire>)
    ensures r.Some? <==> exists i :: 0 <= i < |ws| && ws[i].name == name
    ensures r.Some? ==> r.value in ws && r.value.name == name
  {
    if ws == [] then None
    else if ws[0].name == name then Some(ws[0])
    else WireNamed(ws[1..], name)
  }
}
