# A verified model of the Yosys VDB backend and the `efx_mult_bypass` pass

This project models two pieces of Yosys that target Efinix FPGAs, and proves
properties of the models in Dafny.

The first is the `write_vdb` backend, `backends/vdb/vdb.cc`. It writes a
design as a VDB netlist: a byte stream with a fixed header, a per-cell type
table, the cells' port lists and the top module's wires. Every name goes
through a substitution cipher, `gbl_map`, and is written as a length byte
followed by the codes of its characters, last character first. The model has
these parts:

- `wrappers.dfy`: `Option`, and `std::map::insert`.
- `bytes.dfy`: bytes, 16-bit values and the output stream with its writers
  `ld` and `revld`.
- `cipher.dfy`: the cipher table and `maplu`/`map_encode`.
- `emission.dfy`: what one emitter produces. It writes some bytes, and then
  either carries on or stops the whole export with `log_error`.
- `rtlil.dfy`: the parts of an `RTLIL::Design` that are read.
- `wire_registry.dfy`: `init_wire_map`.
- `vdb_layout.dfy`: the byte layout of each section as functions, with the
  lemmas about them.
- `vdb_backend.dfy`: the emitters as methods that write to the stream. Each
  one is proved to write exactly what its layout function gives.

The second is the pass `efx_mult_bypass`, `techlibs/efinix/efx_mult_bypass.cc`
(`efx_mult_bypass.dfy`). It retypes every `$mul` cell as `$__efx_mult`,
unless the cell has a true `efx_mult_bypass` attribute. The design is a class
whose module sequence the pass updates cell by cell.

Decisions about what the code does where it is easy to misread:

- The cipher table is built with the `std::map` initializer-list
  constructor. That constructor inserts the entries in order, and a key that
  is already present is not overwritten, so **the first entry for a
  character wins**. For example, `'['` maps to 0x3c, not 0xbd, and `'D'`
  maps to 0x9a, not 0x13. A later entry for the same character never
  overwrites an earlier one (`Cipher.FirstListedWins`).
- The second part of the table adds only three new characters: `O`, `~` and
  `$`. The table is not injective: `'3'` and `'g'` both map to 0x44.
- `ld(*f, 0x00)` writes one byte. A count written as `uchar` (the length
  byte of an encoded name, and the number of connections or wires) is taken
  modulo 256.
- A top-module wire that is neither input nor output is reported with the
  *top module's* name, as the code does (line 271). A cell connection is
  reported with the port's name.
- When several modules are marked `top`, the last one wins. When none is
  marked, the top name is empty.
- In `init_wire_map` the 16-bit counter rises once per wire of every module
  and wraps at 2^16. A name seen again keeps its first value but still uses
  up a counter value.

## Model

| member | source | states |
|---|---|---|
| Bytes.Zeros | backends/vdb/vdb.cc:133-137 | `zeros(x)` has length `x` and every byte is 0 |
| Bytes.ReversedAt | backends/vdb/vdb.cc:126-130 | the reversed sequence has the same length, and position `i` holds element `n-1-i` of an `n`-element sequence |
| Bytes.ReversedInvolutive | backends/vdb/vdb.cc:126-130 | reversing twice gives back the original sequence |
| Bytes.LittleEndianRoundTrip | backends/vdb/vdb.cc:149-156 | `revld` of a u16 writes two bytes, from which the value is recovered |
| Bytes.FromLittleEndianRoundTrip | backends/vdb/vdb.cc:149-156 | every pair of bytes is the little-endian form of exactly one u16 |
| Bytes.OutStream.LdByte | backends/vdb/vdb.cc:145-147 | the stream grows by exactly the one byte |
| Bytes.OutStream.Ld | backends/vdb/vdb.cc:139-143 | the stream grows by the vector, first element first |
| Bytes.OutStream.RevLd | backends/vdb/vdb.cc:126-130 | the stream grows by the vector reversed |
| Bytes.OutStream.RevLdU16 | backends/vdb/vdb.cc:149-156 | the stream grows by the low byte, then the high byte |
| StdMap.InsertMeaning | backends/vdb/vdb.cc:64-93 | `std::map` insert, used by the table's constructor and by `init_wire_map`: the keys gain `k`; an existing key keeps its value; a new key gets `v` |
| Cipher.InsertAllFirstWins | backends/vdb/vdb.cc:64-93 | after inserting a list of entries, a key's value is the one it already had, else that of its first entry in the list |
| Cipher.GblMapLookup | backends/vdb/vdb.cc:64-93 | the code of a character comes from the first half of the table if it is listed there, else from the second half (lines 82-92) |
| Cipher.FirstListedWins | backends/vdb/vdb.cc:65-66 | the repeated characters `[`, `]`, `_` and `D` keep the codes of their first entries: 0x3c, 0x35, 0x40 and 0x9a |
| Cipher.ShplitOnlyAdds | backends/vdb/vdb.cc:80-92 | every character listed in the second half is also in the first half, or is `O`, `~` or `$` |
| Cipher.NotInFirstHalf | backends/vdb/vdb.cc:65-78 | `O`, `~` and `$` are not listed in the first half |
| Cipher.ShplitAddsExactly | backends/vdb/vdb.cc:64-93 | a character is mapped without being in the first half iff it is `O`, `~` or `$`, and these map to 0x1d, 0xae and 0x03 |
| Cipher.NotInjective | backends/vdb/vdb.cc:67-76 | two different characters, `3` and `g`, share the code 0x44 |
| Cipher.MapluListed | backends/vdb/vdb.cc:102-109 | `maplu` succeeds iff the character is listed, then returns its first-listed code; otherwise it fails with that character |
| Cipher.EncodeChars | backends/vdb/vdb.cc:115-117 | succeeds iff every character is mapped; then one code per character, the last character's first; otherwise it fails on the last unmapped character, which the loop meets first |
| Cipher.Encode | backends/vdb/vdb.cc:111-119 | succeeds iff every character is mapped; then a length byte (the length mod 256) and, at position `i`, the code of the `i`-th character from the end; otherwise the error names the last unmapped character |
| Cipher.EncodeReversed | backends/vdb/vdb.cc:111-119 | the encoding is the length byte followed by the characters' codes reversed |
| Cipher.EncodeAdd | backends/vdb/vdb.cc:111-119 | `"add"` encodes as 0x03 0x4a 0x4a 0x41 |
| Cipher.LibraryNameEncodes | backends/vdb/vdb.cc:176 | `"efxphysicallib"` encodes without error to 15 bytes with length byte 14 |
| Emit.ThenThenKeeps | backends/vdb/vdb.cc:107 | `log_error` does not return: what was written stays at the front of the stream, and once an emitter has stopped the export the next ones add nothing |
| Emit.ConcatMapFatalPrefix | backends/vdb/vdb.cc:107 | once an element of a loop has stopped the export, the remaining elements add nothing |
| Emit.ConcatMapStopsAt | backends/vdb/vdb.cc:237-251 | a loop of emitters stops at the first fatal one: its output is everything before it plus that element's partial output |
| Emit.ConcatMapAllDone | backends/vdb/vdb.cc:237-251 | a loop of emitters completes iff every element's emitter completes |
| Emit.ConcatMapLength | backends/vdb/vdb.cc:183-197 | when nothing fails, the output length is the sum of the element sizes |
| Rtlil.ModuleNamed | backends/vdb/vdb.cc:255 | `design->module(name)` is found iff some module has that name, and then it is such a module |
| Rtlil.WireNamed | backends/vdb/vdb.cc:280 | `mod->wire(name)` is found iff some wire has that name, and then it is such a wire |
| VdbLayout.HeaderStartBytes | backends/vdb/vdb.cc:168-175 | the header opens with the 37 fixed bytes, the identification, version, algorithm and timestamp each reversed |
| VdbLayout.HeaderLayout | backends/vdb/vdb.cc:168-179 | a mapped top name gives a header of 37 + 15 + 2(n+1) bytes for an `n`-character top name: the fixed start, the library name, the top name twice; an unmapped one stops after the library name |
| VdbLayout.OneEntryPerCell | backends/vdb/vdb.cc:191-210 | a cell contributes its encoded type and 10 zeros to the first pass, or, if it is `$scopeinfo`, its encoded name and 10 zeros to the second pass, never both; both entries complete iff that name can be encoded, and otherwise the entry writes nothing and fails with the unmapped character |
| VdbLayout.ModuleInfoLength | backends/vdb/vdb.cc:181-213 | when every name encodes, the module info completes and has the summed size of one entry per cell |
| VdbLayout.PreambleBlockBytes | backends/vdb/vdb.cc:217-220 | the port-info block is the 15 bytes `preamble_header`, 0x00, the reversed timestamp, 0xff |
| VdbLayout.ModulePortInfoStart | backends/vdb/vdb.cc:215-228 | port info opens with the block, 8 zeros, the top name's encoding, 10 zeros and the block again; an unmapped top name stops after the 8 zeros |
| VdbLayout.DirectionLayout | backends/vdb/vdb.cc:241-250 | the direction block is 0x01 and nine zeros for an input (checked first), 0x02 and nine zeros for an output, else fatal naming the port |
| VdbLayout.ConnectionEntryLayout | backends/vdb/vdb.cc:237-251 | a connection completes iff its port name can be encoded and it has a direction; an unmapped port name writes nothing and fails with the character; for a mapped port name the entry is its encoding, 10 zeros and the direction block (21 bytes more than the port name's length), and it fails with the port's name when there is no direction |
| VdbLayout.CellPortsLayout | backends/vdb/vdb.cc:232-252 | a cell's port list starts with its connection count mod 256 and 0x00, and is `2 + Σ` bytes when every connection is mapped and directed |
| VdbLayout.WireEntryLayout | backends/vdb/vdb.cc:259-274 | a top-module wire completes iff its name can be encoded and it has a direction; an unmapped name writes nothing and fails with the character; for a mapped name the entry is its encoding, 12 zeros and the direction block (23 bytes more than the name's length), and it fails with the top module's name when there is no direction |
| VdbLayout.TopWiresLayout | backends/vdb/vdb.cc:256-274 | the top module's wires start with their count mod 256 and 0x00; the section is 2 + Σ bytes when every wire is mapped and directed, and a wire with no direction stops the export with the top module's name |
| VdbLayout.PrimaryInputsCheck | backends/vdb/vdb.cc:277-288 | the port check writes nothing; it completes iff every port's wire is an input or an output, and otherwise fails on the first port that is neither |
| VdbLayout.LastTopIsLast | backends/vdb/vdb.cc:308-314 | the chosen top is a module marked `top` with no marked module after it; there is none iff no module is marked |
| VdbLayout.TopNameSnoc | backends/vdb/vdb.cc:309-313 | one more module replaces the top name iff it is marked `top` |
| VdbLayout.ExportLayout | backends/vdb/vdb.cc:301-324 | the export starts with the 37 fixed header bytes; a mapped top name's full header is followed by 0x02 0x00; the port check adds no bytes |
| WireRegistry.FirstIndex | backends/vdb/vdb.cc:290-299 | the position of the first wire with a given name: it has that name, and no earlier wire does |
| WireRegistry.RegisteredMeaning | backends/vdb/vdb.cc:290-299 | the registry has the names already present plus every wire name; a new name holds the counter value of its first wire mod 2^16 |
| WireRegistry.RegisteredSnoc | backends/vdb/vdb.cc:295-296 | one more wire inserts its name with the number of wires seen before it, unless the name is present |
| WireRegistry.RegisteredPositions | backends/vdb/vdb.cc:290-299 | with distinct names, each wire is registered with its position mod 2^16 |
| WireRegistry.RegisteredDistinct | backends/vdb/vdb.cc:290-299 | with distinct names and at most 2^16 wires, the wires are numbered 0, 1, 2, … and the values are exactly `0 .. n-1` |
| WireRegistry.RegisteredExample | backends/vdb/vdb.cc:290-299 | wires `a`, `b` then `a`, `c` register as `a`→0, `b`→1, `c`→3 |
| WireRegistry.WireMap.Insert | backends/vdb/vdb.cc:295 | `insert` leaves a present key alone and adds a new one |
| WireRegistry.InitWireMap | backends/vdb/vdb.cc:290-299 | the nested loop leaves the map equal to the registry of all wires of all modules in order |
| VdbBackend.MapEncode | backends/vdb/vdb.cc:111-119 | the loop over the reversed name returns exactly `Encode(s)`, including its error |
| VdbBackend.LdEncoded | backends/vdb/vdb.cc:176-178 | `ld(*f, map_encode(s))` appends the encoding, or stops having written nothing |
| VdbBackend.EmitHeader | backends/vdb/vdb.cc:168-179 | the stream grows by exactly the header, stopping where it does |
| VdbBackend.EmitTypeEntry | backends/vdb/vdb.cc:191-195 | the stream grows by one cell's first-pass entry |
| VdbBackend.EmitScopeEntry | backends/vdb/vdb.cc:206-210 | the stream grows by one cell's second-pass entry |
| VdbBackend.EmitCellTypes | backends/vdb/vdb.cc:183-197 | the nested loop writes the first-pass entries of all cells, module by module, stopping at the first fatal one |
| VdbBackend.EmitScopeNames | backends/vdb/vdb.cc:198-212 | the nested loop writes the second-pass entries of all cells, module by module |
| VdbBackend.EmitModuleInfo | backends/vdb/vdb.cc:181-213 | the stream grows by exactly the module info |
| VdbBackend.EmitDirection | backends/vdb/vdb.cc:241-250 | the stream grows by the direction block, or the export stops naming the given name |
| VdbBackend.EmitConnection | backends/vdb/vdb.cc:239-250 | the stream grows by one connection entry |
| VdbBackend.EmitCellPorts | backends/vdb/vdb.cc:234-251 | the stream grows by one cell's count bytes and connection entries |
| VdbBackend.EmitAllCellPorts | backends/vdb/vdb.cc:230-253 | the nested loop writes every cell's port list, module by module |
| VdbBackend.EmitWireEntry | backends/vdb/vdb.cc:259-273 | the stream grows by one top-module wire entry |
| VdbBackend.EmitTopWires | backends/vdb/vdb.cc:256-274 | the stream grows by the top module's wire count and wire entries |
| VdbBackend.EmitPreambleBlock | backends/vdb/vdb.cc:217-220 | the stream grows by the 15-byte block |
| VdbBackend.EmitModulePortInfo | backends/vdb/vdb.cc:215-275 | the stream grows by exactly the port info |
| VdbBackend.EmitPrimaryInputs | backends/vdb/vdb.cc:277-288 | the outcome is that of the port check |
| VdbBackend.ResolveTop | backends/vdb/vdb.cc:308-314 | the loop over modules returns the name of the last module marked `top`, or the empty name |
| VdbBackend.Execute | backends/vdb/vdb.cc:301-324 | the stream grows by exactly the export, and the outcome is the export's |
| EfxMultBypass.RewriteCellCases | techlibs/efinix/efx_mult_bypass.cc:45-52 | a `$mul` without a true bypass attribute becomes `$__efx_mult`; a bypassed `$mul` and any other cell are unchanged; name, connections and attributes always stay |
| EfxMultBypass.RewriteCellSettles | techlibs/efinix/efx_mult_bypass.cc:45-52 | a cell left as `$mul` is bypassed, and rewriting a rewritten cell changes nothing |
| EfxMultBypass.RewriteDesignFrame | techlibs/efinix/efx_mult_bypass.cc:43-55 | the modules, their names, wires, ports, attributes and cell counts, and every cell apart from its type, are unchanged |
| EfxMultBypass.NoUnbypassedMul | techlibs/efinix/efx_mult_bypass.cc:45-52 | after the pass, every cell still typed `$mul` carries a true bypass attribute |
| EfxMultBypass.RewriteDesignIdempotent | techlibs/efinix/efx_mult_bypass.cc:43-55 | running the pass twice is the same as running it once |
| EfxMultBypass.AllCellsRewritten | techlibs/efinix/efx_mult_bypass.cc:43-55 | across the whole design, each cell is rewritten in place and the cell order is kept |
| EfxMultBypass.Execute | techlibs/efinix/efx_mult_bypass.cc:39-56 | the nested loops leave the design rewritten cell by cell |

## Left out

- Logging (`log`, `log_header`) is left out. It writes nothing to the VDB stream.
- `log_error` is modelled as stopping the export; the message text itself is not modelled.
- `RTLIL::unescape_id` is a library call that is not part of this model. Names are taken as already unescaped.
- `extra_args`, the file name and `std::ostream` are left out. The output is a byte sequence in `Bytes.OutStream`.
- The case with no top module is left out: `design->module("")` would be null. `VdbLayout.ModulePortInfo`, `VdbLayout.Export` and `VdbBackend.Execute` require the top module to exist.
- Module names are taken to be distinct, as they are in an `RTLIL::Design`, which keys its modules by name. For a list with two modules of the same name, `Rtlil.ModuleNamed` would return the first of them even if only a later one is marked `top`.
- A port that names no wire (`mod->wire(name)` null) is also left out. `VdbLayout.PrimaryInputsCheck`, `VdbLayout.ExportLayout` and `VdbBackend.Execute` require `PortsAreWires`.
- `prim_info_map` is never used, so it is not modelled.
- The `wire_map` built in `execute` is never read by an emitter. Only `init_wire_map`'s own contract is modelled.
- `cc->input`/`cc->output` come from cell-type tables that are not part of this model. They are given as fields of `Rtlil.Connection`.
- `get_bool_attribute`/`has_attribute` are modelled on a map from attribute name to truth value.
- Iteration order of modules, wires, cells and connections (hashlib containers) is taken as the order of the model's sequences.
- The bit operations of `revld(f, u16)` are written as arithmetic: the high byte `(v & 0xff00) >> 8` is `v / 256` for a 16-bit value.
- The synthesis script that invokes `efx_mult_bypass` is not part of this model.
- The pass's cells are values inside the design's module sequence. Aliasing between references to the same cell is not modelled.
