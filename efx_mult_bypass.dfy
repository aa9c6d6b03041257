/** The Efinix `efx_mult_bypass` pass: every `$mul` cell of the design is
    retyped `$__efx_mult`, so that later techmapping turns it into a hard
    multiplier, unless the cell carries a true `efx_mult_bypass`
    attribute. */
module EfxMultBypass {
  import opened Rtlil

  const MulType: string := "$mul"
  const EfxMultType: string := "$__efx_mult"
  const BypassAttribute: string := "\\efx_mult_bypass"

  /** `has_attribute(bypass) && get_bool_attribute(bypass)`. */
  predicate Bypassed(c: Cell)
  {
    BypassAttribute in c.attributes && BoolAttribute(c.attributes, BypassAttribute)
  }

  /** What the pass does to one cell. */
  function RewriteCell(c: Cell): Cell
  {
    if c.cellType == MulType && !Bypassed(c) then c.(cellType := EfxMultType) else c
  }

  /** The three cases of the pass, and what it leaves alone: a `$mul`
      without a true bypass attribute is lowered, a bypassed `$mul` and
      every other cell are kept as they are, and only the type can change. */
  lemma RewriteCellCases(c: Cell)
    ensures c.cellType == MulType && !Bypassed(c) ==> RewriteCell(c).cellType == EfxMultType
    ensures c.cellType == MulType && Bypassed(c) ==> RewriteCell(c) == c
    ensures c.cellType != MulType ==> RewriteCell(c) == c
    ensures RewriteCell(c).name == c.name && RewriteCell(c).connections == c.connections
    ensures RewriteCell(c).attributes == c.attributes
  {
  }

  /** After the pass a cell is typed `$mul` only if it is bypassed, and a
      second run changes nothing. */
  lemma RewriteCellSettles(c: Cell)
    ensures RewriteCell(c).cellType == MulType ==> Bypassed(c) && Bypassed(RewriteCell(c))
    ensures RewriteCell(RewriteCell(c)) == RewriteCell(c)
  {
  }

  /** What the pass does to the cells of one module, in their order. */
  function RewriteCells(cs: seq<Cell>): seq<Cell>
  {
    seq(|cs|, k requires 0 <= k < |cs| => RewriteCell(cs[k]))
  }

  function RewriteModule(m: Module): Module
  {
    m.(cells := RewriteCells(m.cells))
  }

  /** What the pass does to the design. */
  function RewriteDesign(ms: seq<Module>): seq<Module>
  {
    seq(|ms|, i requires 0 <= i < |ms| => RewriteModule(ms[i]))
  }

  /** Only cell types change: the modules, their names, wires, ports and
      attributes, the number and order of their cells, and each cell's
      name, connections and attributes stay as they were. */
  lemma RewriteDesignFrame(ms: seq<Module>)
    ensures |RewriteDesign(ms)| == |ms|
    ensures forall i :: 0 <= i < |ms| ==>
      var m, m' := ms[i], RewriteDesign(ms)[i];
      m'.name == m.name && m'.wires == m.wires && m'.ports == m.ports && m'.attributes == m.attributes &&
      |m'.cells| == |m.cells|
    ensures forall i, k :: 0 <= i < |ms| && 0 <= k < |ms[i].cells| ==>
      RewriteDesign(ms)[i].cells[k].(cellType := ms[i].cells[k].cellType) == ms[i].cells[k]
  {
  }

  /** After the pass every cell still typed `$mul` is bypassed. */
  lemma NoUnbypassedMul(ms: seq<Module>)
    ensures forall i, k :: 0 <= i < |RewriteDesign(ms)| && 0 <= k < |RewriteDesign(ms)[i].cells| ==>
      RewriteDesign(ms)[i].cells[k].cellType == MulType ==> Bypassed(RewriteDesign(ms)[i].cells[k])
  {
    forall i, k | 0 <= i < |RewriteDesign(ms)| && 0 <= k < |RewriteDesign(ms)[i].cells|
      ensures RewriteDesign(ms)[i].cells[k].cellType == MulType ==> Bypassed(RewriteDesign(ms)[i].cells[k])
    {
      RewriteCellSettles(ms[i].cells[k]);
    }
  }

  /** Running the pass twice is running it once. */
  lemma RewriteDesignIdempotent(ms: seq<Module>)
    ensures RewriteDesign(RewriteDesign(ms)) == RewriteDesign(ms)
  {
    var r := RewriteDesign(ms);
    forall i | 0 <= i < |ms| ensures RewriteModule(r[i]) == r[i] {
      forall k | 0 <= k < |r[i].cells| ensures RewriteCell(r[i].cells[k]) == r[i].cells[k] {
        RewriteCellSettles(ms[i].cells[k]);
      }
    }
  }

  /** Seen across the whole design, the pass rewrites each cell where it
      stands, in module order. */
  lemma {:induction false} AllCellsRewritten(ms: seq<Module>)
    ensures AllCells(RewriteDesign(ms)) == RewriteCells(AllCells(ms))
  {
    if ms != [] {
      var init := ms[..|ms| - 1];
      AllCellsRewritten(init);
      assert RewriteDesign(ms)[..|ms| - 1] == RewriteDesign(init);
      RewriteCellsAppend(AllCells(init), ms[|ms| - 1].cells);
    }
  }

  lemma RewriteCellsAppend(cs: seq<Cell>, cs': seq<Cell>)
    ensures RewriteCells(cs + cs') == RewriteCells(cs) + RewriteCells(cs')
  {
  }

  /** `RTLIL::Design`, of which the pass changes the modules' cells. */
  class Design {
    var modules: seq<Module>

    constructor (ms: seq<Module>)
      ensures modules == ms
    {
      modules := ms;
    }
  }

  /** `EfxMultBypass::execute`: for every module and every cell of it, a
      `$mul` cell that is not bypassed gets the type `$__efx_mult`. */
  method Execute(design: Design)
    modifies design
    ensures design.modules == RewriteDesign(old(design.modules))
  {
    ghost var ms := design.modules;
    var i := 0;
    while i < |design.modules|
      invariant |design.modules| == |ms| && 0 <= i <= |ms|
      invariant forall k :: 0 <= k < i ==> design.modules[k] == RewriteModule(ms[k])
      invariant forall k :: i <= k < |ms| ==> design.modules[k] == ms[k]
    {
      ghost var before := design.modules;
      var j := 0;
      while j < |design.modules[i].cells|
        invariant |design.modules| == |ms|
        invariant design.modules[i].(cells := ms[i].cells) == ms[i]
        invariant |design.modules[i].cells| == |ms[i].cells| && 0 <= j <= |ms[i].cells|
        invariant forall k :: 0 <= k < j ==> design.modules[i].cells[k] == RewriteCell(ms[i].cells[k])
        invariant forall k :: j <= k < |ms[i].cells| ==> design.modules[i].cells[k] == ms[i].cells[k]
        invariant forall k :: 0 <= k < |ms| && k != i ==> design.modules[k] == before[k]
      {
        var cc := design.modules[i].cells[j];
        if cc.cellType == MulType {
          if BypassAttribute in cc.attributes && BoolAttribute(cc.attributes, BypassAttribute) {
            // the cell keeps `$mul`
          } else {
            var mm := design.modules[i];
            design.modules := design.modules[i := mm.(cells := mm.cells[j := cc.(cellType := EfxMultType)])];
          }
        }
        j := j + 1;
      }
      assert design.modules[i].cells == RewriteCells(ms[i].cells);
      i := i + 1;
    }
  }
}
